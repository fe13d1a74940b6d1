/** The parser finds every phrase of the grammar: completeness, and with it that
    the grammar is unambiguous. */
module AgexComplete {
  import opened AgexAst
  import opened AgexExprParser
  import opened AgexGrammar

  /** No operator tighter than level `k` continues the phrase into `rest`. */
  predicate Ends(k: nat, rest: seq<Token>) {
    forall j: nat :: k < j <= POSTFIX ==> !Continues(j, rest)
  }

  /** Only an `is` test ends in two words. */
  predicate EndsInTest(a: seq<Token>) {
    |a| > 1 && a[|a| - 2].Is(Ident) && a[|a| - 1].Is(Ident)
  }

  /** No operator of level `k` or tighter continues `a` into `rest`; a test that has
      just been read is not continued by operators tighter than its own. */
  predicate Halts(k: nat, a: seq<Token>, rest: seq<Token>) {
    forall j: nat :: k <= j <= (if EndsInTest(a) then IS else POSTFIX) ==> !Continues(j, rest)
  }

  predicate StartsPostfix(ty: TokenType) {
    (ty.IntLiteral? || ty.FloatLiteral? || ty.StringLiteral? || ty.CharLiteral? || ty.LParen? || ty.Ident?
      || ty.Print? || ty.Range?)
  }

  /** What may follow a phrase `a` of level `k`. */
  predicate Follows(k: nat, a: seq<Token>, rest: seq<Token>) {
    if k <= UNARY then Halts(k + 1, a, rest) else At(rest, LParen) ==> CanBeCalled(a)
  }

  /** No phrase tighter than a test ends in one. */
  lemma {:induction false} NoTest(k: nat, a: seq<Token>, e: Expr)
    requires IS < k <= PRIMARY && Derives(k, a, e)
    ensures !EndsInTest(a)
    decreases |a|, 20 - k
  {
    if k == PRIMARY {
      PrimaryEnd(a, e);
    } else if Derives(k + 1, a, e) {
      NoTest(k + 1, a, e);
    } else {
      var i: nat :| DerivesAt(k, a, e, i);
      if k == POSTFIX {
        PostfixEnd(a, e, i);
      } else {
        var m, right := if k == UNARY then UNARY else k + 1, if k == UNARY then e.operand else e.right;
        FirstToken(m, a[i + 1..], right);
        NoTest(m, a[i + 1..], right);
        SameEnd(a, i + 1);
      }
    }
  }

  lemma PrimaryEnd(a: seq<Token>, e: Expr)
    requires DerivesPrimary(a, e)
    ensures !EndsInTest(a)
  {
    if |a| > 1 && !a[0].Is(LParen) {
      ClosedList(a, 2, e.args);
    }
  }

  lemma PostfixEnd(a: seq<Token>, e: Expr, i: nat)
    requires i < |a| && DerivesPostfix(a, e, i)
    ensures !EndsInTest(a)
  {
    match e
    case MethodE(_, _, args) => ClosedList(a, i + 3, args);
    case SafeCallE(_, _, args) => if i + 3 < |a| { ClosedList(a, i + 4, args); }
    case CallE(_, args) => ClosedList(a, i + 1, args);
    case FieldE(_, _) =>
  }

  /** What stands behind a token that is no word ends as the whole. */
  lemma SameEnd(a: seq<Token>, n: nat)
    requires 0 < n < |a| && !a[n - 1].Is(Ident)
    ensures EndsInTest(a) == EndsInTest(a[n..])
  {
  }

  /** The parser on `a + rest` reads `a` as `e` and goes on with its loop. */
  ghost predicate Goal(k: nat, a: seq<Token>, e: Expr, rest: seq<Token>) {
    && (k < UNARY ==> ParseLevel(k, a + rest) == Loop(k, e, rest))
    && (k == POSTFIX ==> ParseLevel(k, a + rest) == PostfixLoop(e, rest))
    && (k == UNARY || k == PRIMARY ==> ParseLevel(k, a + rest) == Parsed(e, rest))
  }

  lemma {:induction false} FirstToken(k: nat, a: seq<Token>, e: Expr)
    requires Derives(k, a, e)
    ensures a != [] && (StartsPostfix(a[0].ty) || (k <= UNARY && UnaryOp(a[0].ty)))
    decreases |a|, if k <= PRIMARY then 20 - k else 0
  {
    if k < PRIMARY && !Derives(k + 1, a, e) {
      var i: nat :| DerivesAt(k, a, e, i);
      if k == POSTFIX {
        assert DerivesPostfix(a, e, i);
        FirstToken(k, a[..i], if e.CallE? then e.callee else e.recv);
      } else if k != UNARY {
        FirstToken(k, a[..i], if e.CastE? then e.expr else e.left);
      }
    } else if k < PRIMARY {
      FirstToken(k + 1, a, e);
    }
  }

  lemma {:induction false} FirstOfList(a: seq<Token>, es: seq<Expr>)
    requires es != [] && DerivesList(a, es)
    ensures a != [] && !a[0].Is(RParen)
    decreases |a|
  {
    if |es| == 1 {
      FirstToken(ELVIS, a, es[0]);
    } else {
      var i: nat :| DerivesListAt(a, es, i);
      FirstOfList(a[..i], es[..|es| - 1]);
    }
  }

  /** Cutting a phrase at `i` moves the rest of it to the right. */
  lemma Cut(a: seq<Token>, i: nat, n: nat, rest: seq<Token>)
    requires i + n <= |a|
    ensures a + rest == a[..i] + (a[i..] + rest)
    ensures (a[i..] + rest)[n..] == a[i + n..] + rest
    ensures forall j :: 0 <= j < n ==> (a[i..] + rest)[j] == a[i + j]
  {
    assert a == a[..i] + a[i..];
  }

  lemma {:induction false} CompleteLevel(k: nat, a: seq<Token>, e: Expr, rest: seq<Token>)
    requires k <= PRIMARY && Derives(k, a, e) && Follows(k, a, rest)
    ensures Goal(k, a, e, rest)
    decreases |a|, 20 - k
  {
    if k == PRIMARY {
      CompletePrimary(a, e, rest);
    } else if Derives(k + 1, a, e) {
      if k < POSTFIX { NextHalts(k, a, e, rest); }
      CompleteLevel(k + 1, a, e, rest);
      Looser(k, a, e, rest);
    } else {
      var i: nat :| DerivesAt(k, a, e, i);
      CompleteAt(k, a, e, i, rest);
    }
  }

  lemma NextHalts(k: nat, a: seq<Token>, e: Expr, rest: seq<Token>)
    requires k <= UNARY && Derives(k + 1, a, e) && Halts(k + 1, a, rest)
    ensures !Continues(k + 1, rest)
  {
    if k + 1 > IS { NoTest(k + 1, a, e); }
  }

  /** A phrase of a tighter level read at level `k`. */
  lemma Looser(k: nat, a: seq<Token>, e: Expr, rest: seq<Token>)
    requires k < PRIMARY && Derives(k + 1, a, e) && Follows(k, a, rest) && Goal(k + 1, a, e, rest)
    ensures Goal(k, a, e, rest)
  {
    if k < POSTFIX { NextHalts(k, a, e, rest); }
    if k == UNARY {
      FirstToken(POSTFIX, a, e);
      assert (a + rest)[0] == a[0];
    }
  }

  lemma {:induction false} CompleteAt(k: nat, a: seq<Token>, e: Expr, i: nat, rest: seq<Token>)
    requires k < PRIMARY && DerivesAt(k, a, e, i) && Follows(k, a, rest)
    ensures Goal(k, a, e, rest)
    decreases |a|, 1
  {
    hide Derives, DerivesAt, Goal, Follows, Halts, ParseLevel, Loop, PostfixLoop;
    if k == POSTFIX {
      CompletePostfix(a, e, i, rest);
    } else if k == UNARY {
      CompleteUnary(a, e, i, rest);
    } else if k == IS {
      CompleteIs(a, e, i, rest);
    } else {
      CompleteBinary(k, a, e, i, rest);
    }
  }

  lemma {:induction false} CompleteUnary(a: seq<Token>, e: Expr, i: nat, rest: seq<Token>)
    requires DerivesAt(UNARY, a, e, i) && Follows(UNARY, a, rest)
    ensures Goal(UNARY, a, e, rest)
    decreases |a|, 0
  {
    FirstToken(UNARY, a[1..], e.operand);
    SameEnd(a, 1);
    CompleteLevel(UNARY, a[1..], e.operand, rest);
    assert (a + rest)[1..] == a[1..] + rest;
  }

  /** An operator of level `k` does not continue any tighter phrase. */
  lemma OperatorEnds(k: nat, ts: seq<Token>)
    requires k < UNARY && Continues(k, ts)
    ensures Ends(k, ts)
  {
  }

  /** A complete right operand: the tighter loop stops at `rest`. */
  lemma GoalDone(k: nat, a: seq<Token>, e: Expr, rest: seq<Token>)
    requires k <= UNARY && Goal(k, a, e, rest) && !Continues(k, rest)
    ensures ParseLevel(k, a + rest) == Parsed(e, rest)
  {
  }

  lemma {:induction false} CompleteBinary(k: nat, a: seq<Token>, e: Expr, i: nat, rest: seq<Token>)
    requires k < UNARY && k != IS && DerivesAt(k, a, e, i) && Follows(k, a, rest)
    ensures Goal(k, a, e, rest)
    decreases |a|, 0
  {
    var n := if k == ELVIS then 2 else 1;
    var mid := a[i..] + rest;
    Cut(a, i, n, rest);
    assert mid[0] == a[i] && Continues(k, mid);
    OperatorEnds(k, mid);
    CompleteLevel(k, a[..i], e.left, mid);
    FirstToken(k + 1, a[i + n..], e.right);
    SameEnd(a, i + n);
    NextHalts(k, a[i + n..], e.right, rest);
    CompleteLevel(k + 1, a[i + n..], e.right, rest);
    GoalDone(k + 1, a[i + n..], e.right, rest);
    LoopStep(k, e.left, mid, e.right, rest);
  }

  lemma {:induction false} CompleteIs(a: seq<Token>, e: Expr, i: nat, rest: seq<Token>)
    requires DerivesAt(IS, a, e, i)
    ensures Goal(IS, a, e, rest)
    decreases |a|, 0
  {
    var mid := a[i..] + rest;
    Cut(a, i, 2, rest);
    TestStep(e.expr, mid, e.name, rest);
    OperatorEnds(IS, mid);
    CompleteLevel(IS, a[..i], e.expr, mid);
  }

  lemma TestStep(left: Expr, ts: seq<Token>, name: string, rest: seq<Token>)
    requires |ts| >= 2 && ts[0] == Token(Ident, "is") && ts[1] == Token(Ident, name) && ts[2..] == rest
    ensures Continues(IS, ts) && Loop(IS, left, ts) == Loop(IS, CastE(left, name), rest)
  {
    assert ts[1..][1..] == rest;
  }

  lemma {:induction false} CompletePostfix(a: seq<Token>, e: Expr, i: nat, rest: seq<Token>)
    requires DerivesAt(POSTFIX, a, e, i) && Follows(POSTFIX, a, rest)
    ensures Goal(POSTFIX, a, e, rest)
    decreases |a|, 0
  {
    var t := a[i..];
    Cut(a, i, 1, rest);
    CompleteLevel(POSTFIX, a[..i], if e.CallE? then e.callee else e.recv, t + rest);
    if e.CallE? {
      CompleteArgs(a[i + 1..], e.args, rest);
      CallStep(e.callee, t + rest);
    } else {
      CompleteMember(a, e, i, rest);
    }
  }

  lemma {:induction false} CompleteMember(a: seq<Token>, e: Expr, i: nat, rest: seq<Token>)
    requires i < |a| && DerivesPostfix(a, e, i) && Follows(POSTFIX, a, rest) && !e.CallE?
    ensures PostfixLoop(e.recv, a[i..] + rest) == PostfixLoop(e, rest)
    decreases |a|, 0, 0
  {
    var t, n := a[i..], if e.SafeCallE? then 2 else 1;
    MemberHead(t, e.name, n, rest);
    if i + n + 1 == |a| {
      assert a[|a| - 1] == t[n] && a[|a| - 2] == t[n - 1];
      FieldStep(e.recv, t + rest, n);
    } else {
      assert t[n + 2..] == a[i + n + 2..];
      CompleteArgs(t[n + 2..], e.args, rest);
      MethodStep(e.recv, t + rest, n, Parsed(e.args, rest));
    }
  }

  /** `t` is `.name` (n == 1) or `?.name` (n == 2), possibly with more after it. */
  predicate IsMember(t: seq<Token>, name: string, n: nat) {
    && 1 <= n <= 2 && |t| > n && t[n] == Token(Ident, name)
    && (if n == 1 then t[0].Is(Dot) else t[0].Is(Question) && t[1].Is(Dot))
  }

  lemma MemberHead(t: seq<Token>, name: string, n: nat, rest: seq<Token>)
    requires IsMember(t, name, n)
    ensures AtMember(t + rest, n) && (t + rest)[n].value == name
    ensures |t| == n + 1 ==> (t + rest)[n + 1..] == rest && (NextIs((t + rest)[n..], LParen) <==> At(rest, LParen))
    ensures |t| > n + 1 ==>
      (t + rest)[n + 2..] == t[n + 2..] + rest && (NextIs((t + rest)[n..], LParen) <==> t[n + 1].Is(LParen))
  {
    assert (t + rest)[n..] == t[n..] + rest;
  }

  lemma Split(t: seq<Token>, n: nat, rest: seq<Token>)
    requires n <= |t|
    ensures (t + rest)[n..] == t[n..] + rest
    ensures forall j :: 0 <= j < n ==> (t + rest)[j] == t[j]
  {
  }

  lemma {:induction false} CompletePrimary(a: seq<Token>, e: Expr, rest: seq<Token>)
    requires DerivesPrimary(a, e) && (At(rest, LParen) ==> CanBeCalled(a))
    ensures ParsePrimary(a + rest) == Parsed(e, rest)
    decreases |a|, 1
  {
    if |a| == 1 {
      SingleToken(a[0], e, rest);
      assert a == [a[0]];
    } else if a[0].Is(LParen) {
      CompleteParens(a, e, rest);
    } else {
      CompleteGrab(a, e, rest);
    }
  }

  lemma SingleToken(t: Token, e: Expr, rest: seq<Token>)
    requires DerivesPrimary([t], e) && (At(rest, LParen) ==> CanBeCalled([t]))
    ensures ParsePrimary([t] + rest) == Parsed(e, rest)
  {
    var ts := [t] + rest;
    assert ts[0] == t && ts[1..] == rest;
    if Word(t.ty) {
      WordStep(ts);
      assert NextIs(ts, LParen) ==> At(rest, LParen);
    }
  }

  lemma {:induction false} CompleteGrab(a: seq<Token>, e: Expr, rest: seq<Token>)
    requires |a| > 1 && !a[0].Is(LParen) && DerivesPrimary(a, e)
    ensures ParsePrimary(a + rest) == Parsed(e, rest)
    decreases |a|, 0
  {
    Split(a, 2, rest);
    Split(a, 1, rest);
    CompleteArgs(a[2..], e.args, rest);
    GrabStep(a + rest, e.args, rest);
  }

  lemma GrabStep(ts: seq<Token>, args: seq<Expr>, rest: seq<Token>)
    requires |ts| > 1 && Grabs(ts[0]) && ts[1].Is(LParen) && ParseArgs(ts[2..]) == Parsed(args, rest)
    ensures ParsePrimary(ts) == Parsed(GrabExpr(ts[0], args), rest)
  {
    WordStep(ts);
    assert NextIs(ts, LParen);
  }

  lemma WordStep(ts: seq<Token>)
    requires ts != [] && Word(ts[0].ty)
    ensures ParsePrimary(ts) == ParseWord(ts)
  {
  }

  lemma {:induction false} CompleteParens(a: seq<Token>, e: Expr, rest: seq<Token>)
    requires |a| > 1 && a[0].Is(LParen) && DerivesPrimary(a, e)
    ensures ParsePrimary(a + rest) == Parsed(e, rest)
    decreases |a|, 0
  {
    var inner, tail := a[1..|a| - 1], [a[|a| - 1]] + rest;
    Split(a, 1, rest);
    assert a[1..] + rest == inner + tail;
    Closed(tail);
    CompleteLevel(ELVIS, inner, e, tail);
    assert tail[1..] == rest;
  }

  /** Nothing continues at a closing parenthesis, a comma or the end of input. */
  lemma Closed(ts: seq<Token>)
    requires At(ts, RParen) || At(ts, Comma) || At(ts, Eof)
    ensures Ends(ELVIS, ts) && !Continues(ELVIS, ts)
  {
  }

  lemma {:induction false} CompleteArgs(a: seq<Token>, es: seq<Expr>, rest: seq<Token>)
    requires DerivesArgs(a, es)
    ensures ParseArgs(a + rest) == Parsed(es, rest)
    decreases |a|, 40
  {
    if es == [] {
      assert (a + rest)[0] == a[0] && (a + rest)[1..] == rest;
    } else {
      var l, tail := a[..|a| - 1], [a[|a| - 1]] + rest;
      assert a + rest == l + tail;
      FirstOfList(l, es);
      CompleteList(l, es, tail);
      assert (l + tail)[0] == l[0] && tail[1..] == rest;
    }
  }

  /** `ParseArgs` after its test for an empty list. */
  function ListFrom(ts: seq<Token>): Parse<seq<Expr>> {
    match ParseLevel(ELVIS, ts)
    case Parsed(x, rest) => ArgsTail([x], rest)
    case Stuck(e) => Stuck(e)
  }

  lemma {:induction false} CompleteList(a: seq<Token>, es: seq<Expr>, rest: seq<Token>)
    requires es != [] && DerivesList(a, es) && (At(rest, Comma) || At(rest, RParen))
    ensures ListFrom(a + rest) == ArgsTail(es, rest)
    decreases |a|, 30
  {
    Closed(rest);
    if |es| == 1 {
      CompleteLevel(ELVIS, a, es[0], rest);
      assert [es[0]] == es;
    } else {
      var i: nat :| DerivesListAt(a, es, i);
      var mid, init, last := a[i..] + rest, es[..|es| - 1], es[|es| - 1];
      Cut(a, i, 1, rest);
      CompleteList(a[..i], init, mid);
      CompleteLevel(ELVIS, a[i + 1..], last, rest);
      GoalDone(ELVIS, a[i + 1..], last, rest);
      TailStep(init, mid, last, rest);
      assert init + [last] == es;
    }
  }

  lemma TailStep(init: seq<Expr>, ts: seq<Token>, last: Expr, rest: seq<Token>)
    requires At(ts, Comma) && ParseLevel(ELVIS, ts[1..]) == Parsed(last, rest)
    ensures ArgsTail(init, ts) == ArgsTail(init + [last], rest)
  {
  }

  // ------------------------------------------------- where the parser stops

  /** `r` stopped where nothing of level `k` or tighter goes on. */
  predicate Stopped(k: nat, pre: seq<Token>, ts: seq<Token>, r: Parse<Expr>) {
    r.Parsed? ==> Suffix(r.rest, ts) && Halts(k, pre + Used(ts, r.rest), r.rest)
  }

  lemma {:induction false} StopLevel(k: nat, ts: seq<Token>)
    requires k <= POSTFIX
    ensures Stopped(k, [], ts, ParseLevel(k, ts))
    decreases |ts|, 20 - k
  {
    if k < UNARY {
      StopInner(k, ts);
    } else if k == UNARY {
      StopUnary(ts);
    } else {
      var first := ParseLevel(PRIMARY, ts);
      SoundLevel(POSTFIX, ts);
      if first.Parsed? { StopPostfix(first.value, first.rest); }
    }
  }

  lemma {:induction false} StopInner(k: nat, ts: seq<Token>)
    requires k < UNARY
    ensures Stopped(k, [], ts, ParseLevel(k, ts))
    decreases |ts|, 20 - k, 0
  {
    var r, first := ParseLevel(k, ts), ParseLevel(k + 1, ts);
    StopLevel(k + 1, ts);
    SoundLevel(k + 1, ts);
    if first.Parsed? {
      assert [] + Used(ts, first.rest) == Used(ts, first.rest);
      StopLoop(k, Used(ts, first.rest), first.value, first.rest);
      StoppedLater(k, [], ts, first.rest, r);
    }
  }

  lemma {:induction false} StopUnary(ts: seq<Token>)
    ensures Stopped(UNARY, [], ts, ParseLevel(UNARY, ts))
    decreases |ts|, 20 - UNARY, 0
  {
    if ts != [] && UnaryOp(ts[0].ty) {
      var r := ParseLevel(UNARY, ts);
      StopLevel(UNARY, ts[1..]);
      if r.Parsed? { AfterOperator(UNARY, [], ts, 1, ParseLevel(UNARY, ts[1..])); }
    } else {
      StopLevel(POSTFIX, ts);
    }
  }

  /** What was read behind `n` tokens of operator ends as the whole. */
  lemma AfterOperator(k: nat, pre: seq<Token>, ts: seq<Token>, n: nat, r: Parse<Expr>)
    requires r.Parsed? && 0 < n <= |ts| && !ts[n - 1].Is(Ident) && |r.rest| < |ts[n..]| && Stopped(k, [], ts[n..], r)
    ensures Suffix(r.rest, ts) && Halts(k, pre + Used(ts, r.rest), r.rest)
  {
    Skipped(pre, ts, n, r.rest);
    assert [] + Used(ts[n..], r.rest) == Used(ts[n..], r.rest);
    SameEnd(pre + Used(ts, r.rest), |pre| + n);
  }

  /** Stopping after the tokens up to `mid`. */
  lemma StoppedLater(k: nat, pre: seq<Token>, ts: seq<Token>, mid: seq<Token>, r: Parse<Expr>)
    requires Suffix(mid, ts) && Stopped(k, pre + Used(ts, mid), mid, r)
    ensures Stopped(k, pre, ts, r)
  {
    if r.Parsed? { Joined(pre, ts, mid, r.rest); }
  }

  lemma {:induction false} StopLoop(k: nat, pre: seq<Token>, left: Expr, ts: seq<Token>)
    requires k < UNARY && Halts(k + 1, pre, ts)
    ensures Stopped(k, pre, ts, Loop(k, left, ts))
    decreases |ts|, 0
  {
    if !Continues(k, ts) {
      assert pre + Used(ts, ts) == pre;
    } else if k == IS {
      StopTest(pre, left, ts);
    } else {
      StopOperand(k, pre, left, ts);
    }
  }

  lemma {:induction false} StopTest(pre: seq<Token>, left: Expr, ts: seq<Token>)
    requires Continues(IS, ts)
    ensures Stopped(IS, pre, ts, Loop(IS, left, ts))
    decreases |ts|, 0, 0
  {
    if At(ts[1..], Ident) {
      var rest, e := ts[2..], CastE(left, ts[1].value);
      assert ts[1..][1..] == rest;
      DropSuffix(ts, 2);
      StopLoop(IS, pre + Used(ts, rest), e, rest);
      StoppedLater(IS, pre, ts, rest, Loop(IS, e, rest));
    }
  }

  lemma {:induction false} StopOperand(k: nat, pre: seq<Token>, left: Expr, ts: seq<Token>)
    requires k < UNARY && k != IS && Continues(k, ts)
    ensures Stopped(k, pre, ts, Loop(k, left, ts))
    decreases |ts|, 0, 0
  {
    var n := if k == ELVIS then 2 else 1;
    var right := ParseLevel(k + 1, ts[n..]);
    StopLevel(k + 1, ts[n..]);
    if right.Parsed? {
      var rest := right.rest;
      var e := if k == ELVIS then ElvisE(left, right.value) else BinaryE(OpText(k, ts[0]), left, right.value);
      LoopStep(k, left, ts, right.value, rest);
      AfterOperator(k + 1, pre, ts, n, right);
      StopLoop(k, pre + Used(ts, rest), e, rest);
      StoppedLater(k, pre, ts, rest, Loop(k, e, rest));
    }
  }

  lemma {:induction false} StopPostfix(x: Expr, ts: seq<Token>)
    ensures var r := PostfixLoop(x, ts); r.Parsed? ==> !Continues(POSTFIX, r.rest)
    decreases |ts|
  {
    if At(ts, Dot) {
      StopMember(x, ts, 1);
    } else if At(ts, Question) && NextIs(ts, Dot) {
      StopMember(x, ts, 2);
    } else if At(ts, LParen) {
      var args := ParseArgs(ts[1..]);
      CallStep(x, ts);
      if args.Parsed? { StopPostfix(CallE(x, args.value), args.rest); }
    }
  }

  lemma {:induction false} StopMember(x: Expr, ts: seq<Token>, n: nat)
    requires (n == 1 && At(ts, Dot)) || (n == 2 && At(ts, Question) && NextIs(ts, Dot))
    ensures var r := PostfixLoop(x, ts); r.Parsed? ==> !Continues(POSTFIX, r.rest)
    decreases |ts|, 0
  {
    if At(ts[n..], Ident) {
      if NextIs(ts[n..], LParen) {
        var args := ParseArgs(ts[n + 2..]);
        MethodStep(x, ts, n, args);
        if args.Parsed? { StopPostfix(MemberCall(x, ts[n].value, n, args.value), args.rest); }
      } else {
        FieldStep(x, ts, n);
        StopPostfix(Member(x, ts[n].value, n), ts[n + 1..]);
      }
    }
  }

  // ------------------------------------------------------------ main theorems

  /** The parser reads exactly the phrases of the grammar: it returns `e` and leaves
      `rest` iff the tokens in between derive `e` and nothing continues them. */
  lemma ReadsIff(ts: seq<Token>, e: Expr, rest: seq<Token>)
    ensures ParseLevel(ELVIS, ts) == Parsed(e, rest) <==>
      Suffix(rest, ts) && Derives(ELVIS, Used(ts, rest), e) && Halts(ELVIS, Used(ts, rest), rest)
  {
    if ParseLevel(ELVIS, ts) == Parsed(e, rest) {
      SoundLevel(ELVIS, ts);
      StopLevel(ELVIS, ts);
      assert [] + Used(ts, rest) == Used(ts, rest);
    }
    hide Derives, Halts, ParseLevel;
    if Suffix(rest, ts) && Derives(ELVIS, Used(ts, rest), e) && Halts(ELVIS, Used(ts, rest), rest) {
      ReadsPhrase(Used(ts, rest), e, rest);
      assert Used(ts, rest) + rest == ts;
    }
  }

  lemma ReadsPhrase(a: seq<Token>, e: Expr, rest: seq<Token>)
    requires Derives(ELVIS, a, e) && Halts(ELVIS, a, rest)
    ensures ParseLevel(ELVIS, a + rest) == Parsed(e, rest)
  {
    CompleteLevel(ELVIS, a, e, rest);
    GoalDone(ELVIS, a, e, rest);
  }

  /** and exactly the argument lists, */
  lemma ArgumentsIff(ts: seq<Token>, args: seq<Expr>, rest: seq<Token>)
    ensures ParseArgs(ts) == Parsed(args, rest) <==> Suffix(rest, ts) && DerivesArgs(Used(ts, rest), args)
  {
    SoundArgList(ts);
    if Suffix(rest, ts) && DerivesArgs(Used(ts, rest), args) {
      CompleteArgs(Used(ts, rest), args, rest);
      assert Used(ts, rest) + rest == ts;
    }
  }

  /** so that it reads `a` up to the end of input as `e` iff `a` derives `e`. */
  lemma ParserIffGrammar(a: seq<Token>, e: Expr)
    ensures ParseLevel(ELVIS, a + [EOF_TOKEN]) == Parsed(e, [EOF_TOKEN]) <==> Derives(ELVIS, a, e)
  {
    ReadsIff(a + [EOF_TOKEN], e, [EOF_TOKEN]);
    Closed([EOF_TOKEN]);
    assert Used(a + [EOF_TOKEN], [EOF_TOKEN]) == a;
  }

  /** No token sequence has two trees. */
  lemma Unambiguous(a: seq<Token>, e: Expr, e': Expr)
    requires Derives(ELVIS, a, e) && Derives(ELVIS, a, e')
    ensures e == e'
  {
    ParserIffGrammar(a, e);
    ParserIffGrammar(a, e');
  }
}
