/** The stratified, left-associative expression grammar, written without any
    reference to the parser, and the proof that the parser recognises exactly it. */
module AgexGrammar {
  import opened AgexAst
  import opened AgexExprParser

  // ------------------------------------------------------------- the grammar

  /** A call cannot directly follow a member name (that is a method call), nor a
      word that takes the parenthesis itself. */
  predicate CanBeCalled(ts: seq<Token>) {
    && !(|ts| > 1 && ts[|ts| - 2].Is(Dot) && ts[|ts| - 1].Is(Ident))
    && !(|ts| == 1 && Grabs(ts[0]))
  }

  /** `ts` is a phrase of level `k` or tighter with tree `e`. */
  ghost predicate Derives(k: nat, ts: seq<Token>, e: Expr)
    decreases |ts|, if k <= PRIMARY then 20 - k else 0
  {
    if k > PRIMARY then false
    else if k == PRIMARY then DerivesPrimary(ts, e)
    else Derives(k + 1, ts, e) || (exists i: nat :: DerivesAt(k, ts, e, i))
  }

  /** `ts` is a phrase of exactly level `k` whose operator stands at `i`. */
  ghost predicate DerivesAt(k: nat, ts: seq<Token>, e: Expr, i: nat)
    decreases |ts|, 0
  {
    if i >= |ts| then false
    else if k == ELVIS then
      && e.ElvisE? && i + 1 < |ts| && ts[i].Is(Question) && ts[i + 1].Is(Colon)
      && Derives(ELVIS, ts[..i], e.left) && Derives(OR, ts[i + 2..], e.right)
    else if k == IS then
      && e.CastE? && i + 2 == |ts| && ts[i].Is(Ident) && ts[i].value == "is"
      && ts[i + 1].Is(Ident) && ts[i + 1].value == e.name && Derives(IS, ts[..i], e.expr)
    else if k == UNARY then
      && e.UnaryE? && i == 0 && UnaryOp(ts[0].ty) && e.op == UnaryText(ts[0]) && Derives(UNARY, ts[1..], e.operand)
    else if k == POSTFIX then
      DerivesPostfix(ts, e, i)
    else
      && e.BinaryE? && BinaryOp(k, ts[i].ty) && e.op == OpText(k, ts[i])
      && Derives(k, ts[..i], e.left) && Derives(k + 1, ts[i + 1..], e.right)
  }

  ghost predicate DerivesPostfix(ts: seq<Token>, e: Expr, i: nat)
    requires i < |ts|
    decreases |ts|, 0, 0
  {
    match e
    case FieldE(recv, name) =>
      && i + 2 == |ts| && ts[i].Is(Dot) && ts[i + 1] == Token(Ident, name) && Derives(POSTFIX, ts[..i], recv)
    case MethodE(recv, name, args) =>
      && i + 2 < |ts| && ts[i].Is(Dot) && ts[i + 1] == Token(Ident, name) && ts[i + 2].Is(LParen)
      && Derives(POSTFIX, ts[..i], recv) && DerivesArgs(ts[i + 3..], args)
    case SafeCallE(recv, name, args) =>
      && i + 2 < |ts| && ts[i].Is(Question) && ts[i + 1].Is(Dot) && ts[i + 2] == Token(Ident, name)
      && Derives(POSTFIX, ts[..i], recv)
      && (if i + 3 == |ts| then args == [] else ts[i + 3].Is(LParen) && DerivesArgs(ts[i + 4..], args))
    case CallE(callee, args) =>
      && ts[i].Is(LParen) && CanBeCalled(ts[..i])
      && Derives(POSTFIX, ts[..i], callee) && DerivesArgs(ts[i + 1..], args)
    case _ => false
  }

  /** A possibly empty comma-separated list and its closing parenthesis. */
  ghost predicate DerivesArgs(ts: seq<Token>, es: seq<Expr>)
    decreases |ts|, 40
  {
    && ts != [] && ts[|ts| - 1].Is(RParen)
    && if es == [] then |ts| == 1 else DerivesList(ts[..|ts| - 1], es)
  }

  ghost predicate DerivesList(ts: seq<Token>, es: seq<Expr>)
    requires es != []
    decreases |ts|, 30
  {
    if |es| == 1 then Derives(ELVIS, ts, es[0])
    else exists i: nat :: DerivesListAt(ts, es, i)
  }

  ghost predicate DerivesListAt(ts: seq<Token>, es: seq<Expr>, i: nat)
    requires |es| > 1
    decreases |ts|, 0
  {
    && i < |ts| && ts[i].Is(Comma)
    && DerivesList(ts[..i], es[..|es| - 1]) && Derives(ELVIS, ts[i + 1..], es[|es| - 1])
  }

  ghost predicate DerivesPrimary(ts: seq<Token>, e: Expr)
    decreases |ts|, 1
  {
    if |ts| == 0 then false
    else if |ts| == 1 then
      || (ts[0].Is(IntLiteral) && e == IntE(ts[0].value))
      || (ts[0].Is(FloatLiteral) && e == FloatE(ts[0].value))
      || ((ts[0].ty.StringLiteral? || ts[0].ty.CharLiteral?) && e == StringE(ts[0].value))
      || (Word(ts[0].ty) && e == WordExpr(ts[0].value))
    else if ts[0].Is(LParen) then
      ts[|ts| - 1].Is(RParen) && Derives(ELVIS, ts[1..|ts| - 1], e)
    else
      && Grabs(ts[0]) && ts[1].Is(LParen)
      && ((e.NewE? && e == GrabExpr(ts[0], e.args) && DerivesArgs(ts[2..], e.args))
          || (e.CallE? && e == GrabExpr(ts[0], e.args) && DerivesArgs(ts[2..], e.args)))
  }

  // --------------------------------------------------------------- soundness

  /** `rest` is what is left of `ts` after some of its tokens. */
  predicate Suffix(rest: seq<Token>, ts: seq<Token>) {
    |rest| <= |ts| && ts[|ts| - |rest|..] == rest
  }

  /** The tokens of `ts` consumed when `rest` is left. */
  function Used(ts: seq<Token>, rest: seq<Token>): seq<Token>
    requires |rest| <= |ts|
  {
    ts[..|ts| - |rest|]
  }

  /** What is consumed from `ts` down to `mid` and then down to `rest`. */
  lemma UsedTwice(ts: seq<Token>, mid: seq<Token>, rest: seq<Token>)
    requires Suffix(mid, ts) && Suffix(rest, mid)
    ensures Suffix(rest, ts) && Used(ts, rest) == Used(ts, mid) + Used(mid, rest)
  {
    assert ts == Used(ts, mid) + mid;
    assert mid == Used(mid, rest) + rest;
  }

  lemma DropSuffix(ts: seq<Token>, n: nat)
    requires n <= |ts|
    ensures Suffix(ts[n..], ts) && Used(ts, ts[n..]) == ts[..n]
  {
  }

  /** `r` consumed from `ts` a phrase of level `k` with the tree it returns. */
  ghost predicate Sound(k: nat, ts: seq<Token>, r: Parse<Expr>) {
    r.Parsed? ==> Suffix(r.rest, ts) && Derives(k, Used(ts, r.rest), r.value)
  }

  /** `r` consumed tokens that complete the phrase `pre`. */
  ghost predicate SoundAfter(k: nat, pre: seq<Token>, ts: seq<Token>, r: Parse<Expr>) {
    r.Parsed? ==> Suffix(r.rest, ts) && Derives(k, pre + Used(ts, r.rest), r.value)
  }

  ghost predicate SoundArgs(ts: seq<Token>, r: Parse<seq<Expr>>) {
    r.Parsed? ==> Suffix(r.rest, ts) && DerivesArgs(Used(ts, r.rest), r.value)
  }

  /** Extending the finished part of a phrase by the tokens up to `mid`. */
  lemma Shifted(k: nat, pre: seq<Token>, ts: seq<Token>, mid: seq<Token>, r: Parse<Expr>)
    requires Suffix(mid, ts) && SoundAfter(k, pre + Used(ts, mid), mid, r)
    ensures SoundAfter(k, pre, ts, r)
  {
    if r.Parsed? {
      UsedTwice(ts, mid, r.rest);
      assert pre + Used(ts, mid) + Used(mid, r.rest) == pre + Used(ts, r.rest);
    }
  }

  lemma {:induction false} SoundLevel(k: nat, ts: seq<Token>)
    requires k <= PRIMARY
    ensures Sound(k, ts, ParseLevel(k, ts))
    decreases |ts|, 20 - k
  {
    var r := ParseLevel(k, ts);
    if k < UNARY {
      var first := ParseLevel(k + 1, ts);
      SoundLevel(k + 1, ts);
      if first.Parsed? {
        SoundLoop(k, Used(ts, first.rest), first.value, first.rest);
        if r.Parsed? { UsedTwice(ts, first.rest, r.rest); }
      }
    } else if k == UNARY {
      if ts != [] && UnaryOp(ts[0].ty) {
        SoundLevel(UNARY, ts[1..]);
        if r.Parsed? {
          DropSuffix(ts, 1);
          UsedTwice(ts, ts[1..], r.rest);
          var u := Used(ts, r.rest);
          assert u[1..] == Used(ts[1..], r.rest);
          assert DerivesAt(UNARY, u, r.value, 0);
        }
      } else {
        SoundLevel(POSTFIX, ts);
      }
    } else if k == POSTFIX {
      var first := ParseLevel(PRIMARY, ts);
      SoundPrimary(ts);
      if first.Parsed? {
        SoundPostfix(Used(ts, first.rest), first.value, first.rest);
        if r.Parsed? { UsedTwice(ts, first.rest, r.rest); }
      }
    } else {
      SoundPrimary(ts);
    }
  }

  /** Consuming `n` tokens and then the phrase from `ts[n..]` down to `rest`. */
  lemma Skipped(pre: seq<Token>, ts: seq<Token>, n: nat, rest: seq<Token>)
    requires n <= |ts| && Suffix(rest, ts[n..])
    ensures Suffix(rest, ts)
    ensures var whole := pre + Used(ts, rest);
      && |whole| == |pre| + n + |Used(ts[n..], rest)|
      && whole == pre + ts[..n] + Used(ts[n..], rest)
      && whole[..|pre|] == pre && whole[|pre| + n..] == Used(ts[n..], rest)
      && forall j :: 0 <= j < n ==> whole[|pre| + j] == ts[j]
  {
    DropSuffix(ts, n);
    UsedTwice(ts, ts[n..], rest);
  }

  /** One turn of a level's loop. */
  lemma LoopStep(k: nat, left: Expr, ts: seq<Token>, right: Expr, rest: seq<Token>)
    requires k < UNARY && k != IS && Continues(k, ts)
    requires ParseLevel(k + 1, ts[if k == ELVIS then 2 else 1..]) == Parsed(right, rest)
    ensures Loop(k, left, ts) ==
      Loop(k, if k == ELVIS then ElvisE(left, right) else BinaryE(OpText(k, ts[0]), left, right), rest)
  {
  }

  lemma {:induction false} SoundLoop(k: nat, pre: seq<Token>, left: Expr, ts: seq<Token>)
    requires k < UNARY && Derives(k, pre, left)
    ensures SoundAfter(k, pre, ts, Loop(k, left, ts))
    decreases |ts|, 0
  {
    if !Continues(k, ts) {
      assert pre + Used(ts, ts) == pre;
    } else if k == IS {
      SoundIs(pre, left, ts);
    } else {
      SoundOperand(k, pre, left, ts);
    }
  }

  lemma {:induction false} SoundOperand(k: nat, pre: seq<Token>, left: Expr, ts: seq<Token>)
    requires k < UNARY && k != IS && Derives(k, pre, left) && Continues(k, ts)
    ensures SoundAfter(k, pre, ts, Loop(k, left, ts))
    decreases |ts|, 0, 0
  {
    var n := if k == ELVIS then 2 else 1;
    var right := ParseLevel(k + 1, ts[n..]);
    SoundLevel(k + 1, ts[n..]);
    if right.Parsed? {
      var rest := right.rest;
      var e := if k == ELVIS then ElvisE(left, right.value) else BinaryE(OpText(k, ts[0]), left, right.value);
      LoopStep(k, left, ts, right.value, rest);
      MakeBinary(k, pre, left, ts, right.value, rest);
      SoundLoop(k, pre + Used(ts, rest), e, rest);
      Shifted(k, pre, ts, rest, Loop(k, e, rest));
    }
  }

  lemma MakeBinary(k: nat, pre: seq<Token>, left: Expr, ts: seq<Token>, right: Expr, rest: seq<Token>)
    requires k < UNARY && k != IS && Derives(k, pre, left) && Continues(k, ts)
    requires var n := if k == ELVIS then 2 else 1; Suffix(rest, ts[n..]) && Derives(k + 1, Used(ts[n..], rest), right)
    ensures Suffix(rest, ts)
    ensures Derives(k, pre + Used(ts, rest),
      if k == ELVIS then ElvisE(left, right) else BinaryE(OpText(k, ts[0]), left, right))
  {
    var n := if k == ELVIS then 2 else 1;
    Skipped(pre, ts, n, rest);
    var e := if k == ELVIS then ElvisE(left, right) else BinaryE(OpText(k, ts[0]), left, right);
    assert DerivesAt(k, pre + Used(ts, rest), e, |pre|);
  }

  lemma {:induction false} SoundIs(pre: seq<Token>, left: Expr, ts: seq<Token>)
    requires Derives(IS, pre, left) && Continues(IS, ts)
    ensures SoundAfter(IS, pre, ts, Loop(IS, left, ts))
    decreases |ts|, 0, 0
  {
    if At(ts[1..], Ident) {
      var rest, e := ts[2..], CastE(left, ts[1].value);
      assert ts[1..][1..] == rest;
      DropSuffix(ts, 2);
      MakeIs(pre + ts[..2], |pre|, left);
      assert (pre + ts[..2])[..|pre|] == pre;
      SoundLoop(IS, pre + ts[..2], e, rest);
      Shifted(IS, pre, ts, rest, Loop(IS, e, rest));
    }
  }

  lemma MakeIs(ts: seq<Token>, i: nat, left: Expr)
    requires i + 2 == |ts| && ts[i] == Token(Ident, "is") && ts[i + 1].Is(Ident) && Derives(IS, ts[..i], left)
    ensures Derives(IS, ts, CastE(left, ts[i + 1].value))
  {
    assert DerivesAt(IS, ts, CastE(left, ts[i + 1].value), i);
  }

  lemma {:induction false} SoundPostfix(pre: seq<Token>, x: Expr, ts: seq<Token>)
    requires Derives(POSTFIX, pre, x)
    requires At(ts, LParen) ==> CanBeCalled(pre)
    ensures SoundAfter(POSTFIX, pre, ts, PostfixLoop(x, ts))
    decreases |ts|, 0
  {
    if At(ts, Dot) {
      if At(ts[1..], Ident) { SoundMember(pre, x, ts, 1); }
    } else if At(ts, Question) && NextIs(ts, Dot) {
      if At(ts[2..], Ident) { SoundMember(pre, x, ts, 2); }
    } else if At(ts, LParen) {
      SoundCall(pre, x, ts);
    } else {
      assert pre + Used(ts, ts) == pre;
    }
  }

  lemma {:induction false} SoundCall(pre: seq<Token>, x: Expr, ts: seq<Token>)
    requires Derives(POSTFIX, pre, x) && At(ts, LParen) && CanBeCalled(pre)
    ensures SoundAfter(POSTFIX, pre, ts, PostfixLoop(x, ts))
    decreases |ts|, 0, 1
  {
    var args := ParseArgs(ts[1..]);
    SoundArgList(ts[1..]);
    CallStep(x, ts);
    if args.Parsed? {
      MakeCall(pre, x, ts, args.value, args.rest);
      SoundPostfixStep(pre, CallE(x, args.value), ts, args.rest);
    }
  }

  lemma CallStep(x: Expr, ts: seq<Token>)
    requires At(ts, LParen)
    ensures var args := ParseArgs(ts[1..]);
      PostfixLoop(x, ts) == if args.Parsed? then PostfixLoop(CallE(x, args.value), args.rest) else Stuck(args.error)
  {
  }

  /** At `.name` (n == 1) or `?.name` (n == 2). */
  predicate AtMember(ts: seq<Token>, n: nat) {
    && ((n == 1 && At(ts, Dot)) || (n == 2 && At(ts, Question) && NextIs(ts, Dot)))
    && |ts| > n && ts[n].Is(Ident)
  }

  lemma FieldStep(x: Expr, ts: seq<Token>, n: nat)
    requires AtMember(ts, n) && !NextIs(ts[n..], LParen)
    ensures PostfixLoop(x, ts) == PostfixLoop(Member(x, ts[n].value, n), ts[n + 1..])
  {
    MemberTurn(x, ts, n);
  }

  lemma MethodStep(x: Expr, ts: seq<Token>, n: nat, args: Parse<seq<Expr>>)
    requires AtMember(ts, n) && NextIs(ts[n..], LParen) && args == ParseArgs(ts[n + 2..])
    ensures PostfixLoop(x, ts) ==
      if args.Parsed? then PostfixLoop(MemberCall(x, ts[n].value, n, args.value), args.rest) else Stuck(args.error)
  {
    MemberTurn(x, ts, n);
  }

  lemma MemberTurn(x: Expr, ts: seq<Token>, n: nat)
    requires AtMember(ts, n)
    ensures PostfixLoop(x, ts) == MemberLoop(x, ts, n)
  {
  }

  lemma MakeCall(pre: seq<Token>, x: Expr, ts: seq<Token>, args: seq<Expr>, rest: seq<Token>)
    requires Derives(POSTFIX, pre, x) && At(ts, LParen) && CanBeCalled(pre)
    requires Suffix(rest, ts[1..]) && DerivesArgs(Used(ts[1..], rest), args)
    ensures Suffix(rest, ts) && Derives(POSTFIX, pre + Used(ts, rest), CallE(x, args))
    ensures CanBeCalled(pre + Used(ts, rest))
  {
    Skipped(pre, ts, 1, rest);
    CallPhrase(pre + Used(ts, rest), |pre|, x, args);
  }

  lemma CallPhrase(ts: seq<Token>, i: nat, x: Expr, args: seq<Expr>)
    requires i < |ts| && ts[i].Is(LParen) && CanBeCalled(ts[..i])
    requires Derives(POSTFIX, ts[..i], x) && DerivesArgs(ts[i + 1..], args)
    ensures Derives(POSTFIX, ts, CallE(x, args)) && CanBeCalled(ts)
  {
    ClosedList(ts, i + 1, args);
    assert DerivesAt(POSTFIX, ts, CallE(x, args), i);
  }

  /** A member name after `.` (n == 1) or `?.` (n == 2), with its arguments. */
  lemma MethodPhrase(ts: seq<Token>, i: nat, x: Expr, name: string, n: nat, args: seq<Expr>)
    requires 1 <= n <= 2 && i + n + 1 < |ts| && ts[i + n] == Token(Ident, name) && ts[i + n + 1].Is(LParen)
    requires if n == 1 then ts[i].Is(Dot) else ts[i].Is(Question) && ts[i + 1].Is(Dot)
    requires Derives(POSTFIX, ts[..i], x) && DerivesArgs(ts[i + n + 2..], args)
    ensures Derives(POSTFIX, ts, MemberCall(x, name, n, args)) && CanBeCalled(ts)
  {
    ClosedList(ts, i + n + 2, args);
    assert DerivesAt(POSTFIX, ts, MemberCall(x, name, n, args), i);
  }

  lemma FieldPhrase(ts: seq<Token>, i: nat, x: Expr, name: string, n: nat)
    requires 1 <= n <= 2 && i + n + 1 == |ts| && ts[i + n] == Token(Ident, name)
    requires if n == 1 then ts[i].Is(Dot) else ts[i].Is(Question) && ts[i + 1].Is(Dot)
    requires Derives(POSTFIX, ts[..i], x)
    ensures Derives(POSTFIX, ts, Member(x, name, n))
  {
    assert DerivesAt(POSTFIX, ts, Member(x, name, n), i);
  }

  /** A phrase that ends with an argument list can be called. */
  lemma ClosedList(ts: seq<Token>, n: nat, args: seq<Expr>)
    requires n <= |ts| && DerivesArgs(ts[n..], args)
    ensures |ts| > n && ts[|ts| - 1].Is(RParen)
    ensures n > 0 ==> CanBeCalled(ts)
  {
  }

  /** Going on after one more postfix operator. */
  lemma {:induction false} SoundPostfixStep(pre: seq<Token>, e: Expr, ts: seq<Token>, rest: seq<Token>)
    requires Suffix(rest, ts) && |rest| < |ts|
    requires Derives(POSTFIX, pre + Used(ts, rest), e)
    requires At(rest, LParen) ==> CanBeCalled(pre + Used(ts, rest))
    ensures SoundAfter(POSTFIX, pre, ts, PostfixLoop(e, rest))
    decreases |ts|, 0, 0
  {
    SoundPostfix(pre + Used(ts, rest), e, rest);
    Shifted(POSTFIX, pre, ts, rest, PostfixLoop(e, rest));
  }

  lemma {:induction false} SoundMember(pre: seq<Token>, x: Expr, ts: seq<Token>, n: nat)
    requires Derives(POSTFIX, pre, x)
    requires (n == 1 && At(ts, Dot)) || (n == 2 && At(ts, Question) && NextIs(ts, Dot))
    requires At(ts[n..], Ident)
    ensures SoundAfter(POSTFIX, pre, ts, PostfixLoop(x, ts))
    decreases |ts|, 0, 2
  {
    if NextIs(ts[n..], LParen) {
      MethodStep(x, ts, n, ParseArgs(ts[n + 2..]));
      SoundMethod(pre, x, ts, n);
    } else {
      FieldStep(x, ts, n);
      MakeField(pre, x, ts, n);
      SoundPostfixStep(pre, Member(x, ts[n].value, n), ts, ts[n + 1..]);
    }
  }

  lemma MakeField(pre: seq<Token>, x: Expr, ts: seq<Token>, n: nat)
    requires Derives(POSTFIX, pre, x)
    requires (n == 1 && At(ts, Dot)) || (n == 2 && At(ts, Question) && NextIs(ts, Dot))
    requires |ts| > n && ts[n].Is(Ident)
    ensures Suffix(ts[n + 1..], ts) && Derives(POSTFIX, pre + Used(ts, ts[n + 1..]), Member(x, ts[n].value, n))
  {
    DropSuffix(ts, n + 1);
    var whole := pre + ts[..n + 1];
    assert whole[..|pre|] == pre && whole[|pre| + n] == ts[n] && whole[|pre|] == ts[0] && whole[|pre| + 1] == ts[1];
    FieldPhrase(whole, |pre|, x, ts[n].value, n);
  }

  lemma {:induction false} SoundMethod(pre: seq<Token>, x: Expr, ts: seq<Token>, n: nat)
    requires Derives(POSTFIX, pre, x)
    requires (n == 1 && At(ts, Dot)) || (n == 2 && At(ts, Question) && NextIs(ts, Dot))
    requires |ts| > n + 1 && ts[n].Is(Ident) && ts[n + 1].Is(LParen)
    ensures var args := ParseArgs(ts[n + 2..]);
      args.Parsed? ==>
        SoundAfter(POSTFIX, pre, ts, PostfixLoop(MemberCall(x, ts[n].value, n, args.value), args.rest))
    decreases |ts|, 0, 1
  {
    var args := ParseArgs(ts[n + 2..]);
    SoundArgList(ts[n + 2..]);
    if args.Parsed? {
      MakeMethod(pre, x, ts, n, args.value, args.rest);
      SoundPostfixStep(pre, MemberCall(x, ts[n].value, n, args.value), ts, args.rest);
    }
  }

  lemma MakeMethod(pre: seq<Token>, x: Expr, ts: seq<Token>, n: nat, args: seq<Expr>, rest: seq<Token>)
    requires Derives(POSTFIX, pre, x)
    requires (n == 1 && At(ts, Dot)) || (n == 2 && At(ts, Question) && NextIs(ts, Dot))
    requires |ts| > n + 1 && ts[n].Is(Ident) && ts[n + 1].Is(LParen)
    requires Suffix(rest, ts[n + 2..]) && DerivesArgs(Used(ts[n + 2..], rest), args)
    ensures Suffix(rest, ts) && Derives(POSTFIX, pre + Used(ts, rest), MemberCall(x, ts[n].value, n, args))
    ensures CanBeCalled(pre + Used(ts, rest))
  {
    Skipped(pre, ts, n + 2, rest);
    MethodTokens(pre, ts, n, Used(ts[n + 2..], rest), x, args);
  }

  lemma MethodTokens(pre: seq<Token>, ts: seq<Token>, n: nat, tail: seq<Token>, x: Expr, args: seq<Expr>)
    requires Derives(POSTFIX, pre, x)
    requires (n == 1 && At(ts, Dot)) || (n == 2 && At(ts, Question) && NextIs(ts, Dot))
    requires |ts| > n + 1 && ts[n].Is(Ident) && ts[n + 1].Is(LParen)
    requires DerivesArgs(tail, args)
    ensures var whole := pre + ts[..n + 2] + tail;
      Derives(POSTFIX, whole, MemberCall(x, ts[n].value, n, args)) && CanBeCalled(whole)
  {
    var whole := pre + ts[..n + 2] + tail;
    assert whole[..|pre|] == pre;
    assert whole[|pre| + n + 2..] == tail;
    assert whole[|pre|..|pre| + n + 2] == ts[..n + 2];
    MethodHead(whole, |pre|, ts, n);
    MethodPhrase(whole, |pre|, x, ts[n].value, n, args);
  }

  lemma MethodHead(whole: seq<Token>, i: nat, ts: seq<Token>, n: nat)
    requires 1 <= n <= 2 && |ts| > n + 1 && i + n + 2 <= |whole| && whole[i..i + n + 2] == ts[..n + 2]
    ensures whole[i] == ts[0] && whole[i + 1] == ts[1] && whole[i + n] == ts[n] && whole[i + n + 1] == ts[n + 1]
  {
    var m := whole[i..i + n + 2];
    assert m[0] == whole[i] && m[1] == whole[i + 1] && m[n] == whole[i + n] && m[n + 1] == whole[i + n + 1];
  }

  lemma {:induction false} SoundArgList(ts: seq<Token>)
    ensures SoundArgs(ts, ParseArgs(ts))
    decreases |ts|, 30
  {
    var r := ParseArgs(ts);
    if At(ts, RParen) {
      DropSuffix(ts, 1);
    } else {
      var first := ParseLevel(ELVIS, ts);
      SoundLevel(ELVIS, ts);
      if first.Parsed? {
        SoundTail(Used(ts, first.rest), [first.value], first.rest);
        if r.Parsed? { UsedTwice(ts, first.rest, r.rest); }
      }
    }
  }

  lemma {:induction false} SoundTail(pre: seq<Token>, args: seq<Expr>, ts: seq<Token>)
    requires args != [] && DerivesList(pre, args)
    ensures var r := ArgsTail(args, ts);
      r.Parsed? ==> Suffix(r.rest, ts) && DerivesArgs(pre + Used(ts, r.rest), r.value)
    decreases |ts|, 0
  {
    var r := ArgsTail(args, ts);
    if At(ts, Comma) {
      var next := ParseLevel(ELVIS, ts[1..]);
      SoundLevel(ELVIS, ts[1..]);
      if next.Parsed? {
        LongerList(pre, args, ts, next.value, next.rest);
        var whole := pre + Used(ts, next.rest);
        SoundTail(whole, args + [next.value], next.rest);
        if r.Parsed? { Joined(pre, ts, next.rest, r.rest); }
      }
    } else if At(ts, RParen) {
      DropSuffix(ts, 1);
      var whole := pre + Used(ts, ts[1..]);
      assert whole[..|whole| - 1] == pre;
    }
  }

  lemma Joined(pre: seq<Token>, ts: seq<Token>, mid: seq<Token>, rest: seq<Token>)
    requires Suffix(mid, ts) && Suffix(rest, mid)
    ensures Suffix(rest, ts) && pre + Used(ts, mid) + Used(mid, rest) == pre + Used(ts, rest)
  {
    UsedTwice(ts, mid, rest);
  }

  lemma LongerList(pre: seq<Token>, es: seq<Expr>, ts: seq<Token>, e: Expr, rest: seq<Token>)
    requires es != [] && DerivesList(pre, es) && At(ts, Comma)
    requires Suffix(rest, ts[1..]) && Derives(ELVIS, Used(ts[1..], rest), e)
    ensures Suffix(rest, ts) && DerivesList(pre + Used(ts, rest), es + [e])
  {
    Skipped(pre, ts, 1, rest);
    assert (es + [e])[..|es|] == es;
    assert DerivesListAt(pre + Used(ts, rest), es + [e], |pre|);
  }

  lemma {:induction false} SoundPrimary(ts: seq<Token>)
    ensures Sound(PRIMARY, ts, ParsePrimary(ts))
    ensures var r := ParsePrimary(ts);
      r.Parsed? && At(r.rest, LParen) ==> CanBeCalled(Used(ts, r.rest))
    decreases |ts|, 0
  {
    var r := ParsePrimary(ts);
    if r.Parsed? {
      DropSuffix(ts, 1);
      if ts[0].Is(LParen) {
        SoundParens(ts);
      } else if Word(ts[0].ty) && Grabs(ts[0]) && At(ts[1..], LParen) {
        SoundGrab(ts);
      }
    }
  }

  lemma {:induction false} SoundParens(ts: seq<Token>)
    requires At(ts, LParen) && ParsePrimary(ts).Parsed?
    ensures Sound(PRIMARY, ts, ParsePrimary(ts))
    ensures CanBeCalled(Used(ts, ParsePrimary(ts).rest))
    decreases |ts|, 0, 0
  {
    var r := ParsePrimary(ts);
    var inner := ParseLevel(ELVIS, ts[1..]);
    SoundLevel(ELVIS, ts[1..]);
    DropSuffix(inner.rest, 1);
    UsedTwice(ts[1..], inner.rest, r.rest);
    DropSuffix(ts, 1);
    UsedTwice(ts, ts[1..], r.rest);
    var u := Used(ts, r.rest);
    assert u == ts[..1] + Used(ts[1..], inner.rest) + inner.rest[..1];
    assert u[1..|u| - 1] == Used(ts[1..], inner.rest);
  }

  lemma {:induction false} SoundGrab(ts: seq<Token>)
    requires |ts| > 1 && Grabs(ts[0]) && ts[1].Is(LParen) && ParsePrimary(ts).Parsed?
    ensures Sound(PRIMARY, ts, ParsePrimary(ts))
    ensures CanBeCalled(Used(ts, ParsePrimary(ts).rest))
    decreases |ts|, 0, 0
  {
    var r := ParsePrimary(ts);
    var args := ParseArgs(ts[2..]);
    SoundArgList(ts[2..]);
    DropSuffix(ts, 2);
    UsedTwice(ts, ts[2..], r.rest);
    var u := Used(ts, r.rest);
    assert u[2..] == Used(ts[2..], r.rest);
    ClosedList(u, 2, args.value);
  }
}
