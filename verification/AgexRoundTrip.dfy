/** Printing an expression and reading it back. */
module AgexRoundTrip {
  import opened AgexAst
  import opened AgexExprParser
  import opened AgexGrammar
  import opened AgexComplete
  import opened AgexPrinter

  // ------------------------------------- the printed tokens derive Norm(e)

  lemma {:induction false} Lift(k: nat, m: nat, ts: seq<Token>, e: Expr)
    requires k <= m <= PRIMARY && Derives(m, ts, e)
    ensures Derives(k, ts, e)
    decreases m
  {
    if k < m { Lift(k, m - 1, ts, e); }
  }

  lemma SingleWord(name: string)
    ensures Derives(POSTFIX, [WordToken(name)], WordExpr(name))
  {
    assert DerivesPrimary([WordToken(name)], WordExpr(name));
  }

  lemma Literals(e: Expr)
    requires e.IntE? || e.FloatE? || e.BoolE? || e.NullE? || e.ThisE?
    requires Base(e)
    ensures Derives(POSTFIX, Toks(e), Norm(e))
  {
    match e
    case IntE(_) => assert DerivesPrimary(Toks(e), e);
    case FloatE(_) => assert DerivesPrimary(Toks(e), e);
    case BoolE(b) => SingleWord(if b then "true" else "false");
    case NullE => SingleWord("None");
    case ThisE => SingleWord("self");
  }

  /** A parenthesised phrase is primary. */
  lemma Parens(ts: seq<Token>, e: Expr)
    requires Derives(ELVIS, ts, e)
    ensures Derives(POSTFIX, [LP] + ts + [RP], e)
  {
    var whole := [LP] + ts + [RP];
    assert whole[1..|whole| - 1] == ts;
    assert |ts| > 0 by { FirstToken(ELVIS, ts, e); }
    assert DerivesPrimary(whole, e);
  }

  /** The level of a binary operator token. */
  function LevelOf(ty: TokenType): nat {
    match ty
    case Or => OR
    case And => AND
    case Eq => EQ
    case Neq => EQ
    case LT => CMP
    case LE => CMP
    case GT => CMP
    case GE => CMP
    case Plus => ADD
    case Minus => ADD
    case _ => MUL
  }

  lemma BinLevel(op: string)
    requires BinType(op).Some?
    ensures var t := Token(BinType(op).value, op);
      BinaryOp(LevelOf(t.ty), t.ty) && OpText(LevelOf(t.ty), t) == op
  {
    if BinType(op).value.Or? { assert op == [op[0], op[1]] == "||"; }
    if BinType(op).value.And? { assert op == [op[0], op[1]] == "&&"; }
  }

  lemma BinaryAt(k: nat, l: seq<Token>, left: Expr, t: Token, r: seq<Token>, right: Expr)
    requires BinaryOp(k, t.ty) && Derives(k, l, left) && Derives(k + 1, r, right)
    ensures k < UNARY && Derives(k, l + [t] + r, BinaryE(OpText(k, t), left, right))
  {
    var whole := l + [t] + r;
    assert whole[..|l|] == l && whole[|l| + 1..] == r && whole[|l|] == t;
    assert DerivesAt(k, whole, BinaryE(OpText(k, t), left, right), |l|);
  }

  lemma BinaryPhrase(l: seq<Token>, left: Expr, op: string, r: seq<Token>, right: Expr)
    requires BinType(op).Some? && Derives(POSTFIX, l, left) && Derives(POSTFIX, r, right)
    ensures Derives(ELVIS, l + [Token(BinType(op).value, op)] + r, BinaryE(op, left, right))
  {
    var t := Token(BinType(op).value, op);
    var k := LevelOf(t.ty);
    BinLevel(op);
    BinaryFrom(k, l, left, t, r, right);
  }

  lemma BinaryFrom(k: nat, l: seq<Token>, left: Expr, t: Token, r: seq<Token>, right: Expr)
    requires BinaryOp(k, t.ty) && Derives(POSTFIX, l, left) && Derives(POSTFIX, r, right)
    ensures k < UNARY && Derives(ELVIS, l + [t] + r, BinaryE(OpText(k, t), left, right))
  {
    Lift(k, POSTFIX, l, left);
    Lift(k + 1, POSTFIX, r, right);
    BinaryAt(k, l, left, t, r, right);
    Lift(ELVIS, k, l + [t] + r, BinaryE(OpText(k, t), left, right));
  }

  lemma UnaryPhrase(op: string, ts: seq<Token>, e: Expr)
    requires PrefixType(op).Some? && Derives(POSTFIX, ts, e)
    ensures Derives(ELVIS, [Token(PrefixType(op).value, op)] + ts, UnaryE(op, e))
  {
    var whole := [Token(PrefixType(op).value, op)] + ts;
    Lift(UNARY, POSTFIX, ts, e);
    assert whole[1..] == ts;
    assert DerivesAt(UNARY, whole, UnaryE(op, e), 0);
    Lift(ELVIS, UNARY, whole, UnaryE(op, e));
  }

  /** `recv.name(args)` from its parts. */
  lemma MethodToks(r: seq<Token>, recv: Expr, name: string, a: seq<Token>, args: seq<Expr>)
    requires Derives(POSTFIX, r, recv) && DerivesArgs(a + [RP], args)
    ensures Derives(POSTFIX, r + [DOT, WordToken(name), LP] + a + [RP], MethodE(recv, name, args))
  {
    var whole := r + [DOT, WordToken(name), LP] + a + [RP];
    assert whole[..|r|] == r && whole[|r| + 3..] == a + [RP];
    MethodPhrase(whole, |r|, recv, name, 1, args);
  }

  lemma FieldToks(r: seq<Token>, recv: Expr, name: string)
    requires Derives(POSTFIX, r, recv)
    ensures Derives(POSTFIX, r + [DOT, WordToken(name)], FieldE(recv, name))
  {
    var whole := r + [DOT, WordToken(name)];
    assert whole[..|r|] == r;
    FieldPhrase(whole, |r|, recv, name, 1);
  }

  lemma CallToks(c: seq<Token>, callee: Expr, a: seq<Token>, args: seq<Expr>)
    requires Derives(POSTFIX, c, callee) && CanBeCalled(c) && DerivesArgs(a + [RP], args)
    ensures Derives(POSTFIX, c + [LP] + a + [RP], CallE(callee, args))
  {
    var whole := c + [LP] + a + [RP];
    assert whole[..|c|] == c && whole[|c| + 1..] == a + [RP];
    CallPhrase(whole, |c|, callee, args);
  }

  lemma NewToks(name: string, a: seq<Token>, args: seq<Expr>)
    requires Grabs(WordToken(name)) && DerivesArgs(a + [RP], args)
    ensures Derives(POSTFIX, [WordToken(name)] + [LP] + a + [RP], NewE(name, args))
  {
    var whole := [WordToken(name)] + [LP] + a + [RP];
    assert whole[2..] == a + [RP] && whole[1] == LP;
    assert DerivesPrimary(whole, NewE(name, args));
  }

  lemma NoArgs()
    ensures DerivesArgs([] + [RP], [])
  {
  }

  lemma {:induction false} Derived(e: Expr)
    requires Base(e)
    ensures Derives(POSTFIX, Toks(e), Norm(e))
    decreases e, 1
  {
    match e
    case IdentE(name) => SingleWord(name);
    case BinaryE(_, _, _) => DerivedBinary(e);
    case UnaryE(_, _) => DerivedUnary(e);
    case CallE(_, _) => DerivedCall(e);
    case MethodE(_, _, _) => DerivedMethod(e);
    case FieldE(_, _) => DerivedField(e);
    case ElvisE(_, _) => DerivedElvis(e);
    case _ => Literals(e);
  }

  lemma {:induction false} DerivedBinary(e: Expr)
    requires Base(e) && e.BinaryE?
    ensures Derives(POSTFIX, Toks(e), Norm(e))
    decreases e, 0
  {
    Derived(e.left);
    Derived(e.right);
    var inner := Toks(e.left) + [Token(BinType(e.op).value, e.op)] + Toks(e.right);
    BinaryPhrase(Toks(e.left), Norm(e.left), e.op, Toks(e.right), Norm(e.right));
    Parens(inner, Norm(e));
    assert Toks(e) == [LP] + inner + [RP];
  }

  lemma {:induction false} DerivedUnary(e: Expr)
    requires Base(e) && e.UnaryE?
    ensures Derives(POSTFIX, Toks(e), Norm(e))
    decreases e, 0
  {
    Derived(e.operand);
    var inner := [Token(PrefixType(e.op).value, e.op)] + Toks(e.operand);
    UnaryPhrase(e.op, Toks(e.operand), Norm(e.operand));
    Parens(inner, Norm(e));
    assert Toks(e) == [LP] + inner + [RP];
  }

  lemma {:induction false} DerivedMethod(e: Expr)
    requires Base(e) && e.MethodE?
    ensures Derives(POSTFIX, Toks(e), Norm(e))
    decreases e, 0
  {
    Derived(e.recv);
    var name := MethodName(e.name);
    if Rewritten(e.name) {
      NoArgs();
      MethodToks(Toks(e.recv), Norm(e.recv), name, [], []);
    } else {
      DerivedArgs(e.args);
      MethodToks(Toks(e.recv), Norm(e.recv), name, ArgToks(e.args), NormAll(e.args));
    }
  }

  lemma {:induction false} DerivedField(e: Expr)
    requires Base(e) && e.FieldE?
    ensures Derives(POSTFIX, Toks(e), Norm(e))
    decreases e, 0
  {
    Derived(e.recv);
    if IsLength(e.name) {
      NoArgs();
      MethodToks(Toks(e.recv), Norm(e.recv), "len", [], []);
      assert Toks(e) == Toks(e.recv) + [DOT, WordToken("len"), LP] + [] + [RP];
    } else {
      FieldToks(Toks(e.recv), Norm(e.recv), e.name);
    }
  }

  lemma {:induction false} DerivedElvis(e: Expr)
    requires Base(e) && e.ElvisE?
    ensures Derives(POSTFIX, Toks(e), Norm(e))
    decreases e, 0
  {
    Derived(e.left);
    Derived(e.right);
    Lift(ELVIS, POSTFIX, Toks(e.right), Norm(e.right));
    OneArg(Toks(e.right), Norm(e.right));
    MethodToks(Toks(e.left), Norm(e.left), "unwrap_or", Toks(e.right), [Norm(e.right)]);
  }

  lemma OneArg(ts: seq<Token>, e: Expr)
    requires Derives(ELVIS, ts, e)
    ensures DerivesArgs(ts + [RP], [e])
  {
    assert (ts + [RP])[..|ts|] == ts;
  }

  lemma {:induction false} DerivedArgs(args: seq<Expr>)
    requires BaseAll(args)
    ensures DerivesArgs(ArgToks(args) + [RP], NormAll(args))
    decreases args, 0, 1
  {
    if args == [] {
      NoArgs();
    } else {
      DerivedList(args);
      assert (ArgToks(args) + [RP])[..|ArgToks(args)|] == ArgToks(args);
    }
  }

  lemma {:induction false} DerivedList(args: seq<Expr>)
    requires BaseAll(args) && args != []
    ensures DerivesList(ArgToks(args), NormAll(args))
    decreases args, 0, 0
  {
    var n := |args| - 1;
    Derived(args[n]);
    Lift(ELVIS, POSTFIX, Toks(args[n]), Norm(args[n]));
    if n == 0 {
      assert NormAll(args) == [Norm(args[0])];
    } else {
      DerivedList(args[..n]);
      var init, whole := ArgToks(args[..n]), ArgToks(args);
      assert whole[..|init|] == init && whole[|init|] == COMMA && whole[|init| + 1..] == Toks(args[n]);
      assert NormAll(args)[..n] == NormAll(args[..n]);
      assert DerivesListAt(whole, NormAll(args), |init|);
    }
  }

  /** The callee's tokens can be followed by a call unless it is a bare word that
      takes the parenthesis itself or ends in a field name. */
  lemma CalleeEnds(e: Expr)
    requires Base(e) && !(e.FieldE? && !IsLength(e.name)) && !e.NullE?
    requires e.IdentE? ==> !Grabs(WordToken(e.name))
    ensures CanBeCalled(Toks(e))
  {
    var ts := Toks(e);
    if e.BoolE? || e.IdentE? || e.ThisE? || e.IntE? || e.FloatE? {
      assert |ts| == 1;
      assert e.ThisE? ==> !Capitalized("self");
    } else {
      assert ts[|ts| - 1] == RP;
    }
  }

  lemma {:induction false} DerivedCall(e: Expr)
    requires Base(e) && e.CallE?
    ensures Derives(POSTFIX, Toks(e), Norm(e))
    decreases e, 0
  {
    var callee, a, es := e.callee, ArgToks(e.args), NormAll(e.args);
    DerivedArgs(e.args);
    if callee.IdentE? && Grabs(WordToken(callee.name)) {
      NewToks(callee.name, a, es);
    } else if callee.NullE? {
      NewToks("None", a, es);
    } else if callee.FieldE? && !IsLength(callee.name) {
      DerivedFieldCall(e);
    } else {
      Derived(callee);
      CalleeEnds(callee);
      CallToks(Toks(callee), Norm(callee), a, es);
    }
  }

  /** A printed call of a field is read back as a method call. */
  lemma {:induction false} DerivedFieldCall(e: Expr)
    requires Base(e) && e.CallE? && e.callee.FieldE? && !IsLength(e.callee.name)
    ensures Derives(POSTFIX, Toks(e), Norm(e))
    decreases e, 0, 0
  {
    var recv, name := e.callee.recv, e.callee.name;
    assert Base(e.callee);
    Derived(recv);
    DerivedArgs(e.args);
    MethodToks(Toks(recv), Norm(recv), name, ArgToks(e.args), NormAll(e.args));
    FieldCallParts(e);
  }

  lemma FieldCallParts(e: Expr)
    requires Base(e) && e.CallE? && e.callee.FieldE? && !IsLength(e.callee.name)
    requires Base(e.callee) && Base(e.callee.recv)
    ensures var recv, name := e.callee.recv, e.callee.name;
      && Toks(e) == Toks(recv) + [DOT, WordToken(name), LP] + ArgToks(e.args) + [RP]
      && Norm(e) == MethodE(Norm(recv), name, NormAll(e.args))
  {
    var c := Toks(e.callee);
    assert c == Toks(e.callee.recv) + [DOT, WordToken(e.callee.name)];
    assert c + [LP] == Toks(e.callee.recv) + [DOT, WordToken(e.callee.name), LP];
  }
}
