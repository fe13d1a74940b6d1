/** The operators and words of the expression grammar: which trees they make,
    stated without the tables that the parser and the grammar share. */
module AgexPhrases {
  import opened AgexAst
  import opened AgexExprParser
  import opened AgexGrammar
  import opened AgexComplete
  import opened AgexRoundTrip

  // -------------------------------------------------------------- operators

  /** How tightly a binary operator binds: `||` least, `*`, `/` and `%` most, with
      elvis below and `is` between comparison and sum. */
  predicate Binds(ty: TokenType, k: nat) {
    match ty
    case Or => k == 1
    case And => k == 2
    case Eq => k == 3
    case Neq => k == 3
    case LT => k == 4
    case LE => k == 4
    case GT => k == 4
    case GE => k == 4
    case Plus => k == 6
    case Minus => k == 6
    case Star => k == 7
    case Slash => k == 7
    case Percent => k == 7
    case _ => false
  }

  /** The tree of `left op right`, for an operator token and a left operand at least
      as tight, a right one tighter. */
  lemma BinaryTree(k: nat, ts: seq<Token>, i: nat, left: Expr, right: Expr)
    requires i < |ts| && Binds(ts[i].ty, k) && Derives(k, ts[..i], left) && Derives(k + 1, ts[i + 1..], right)
    ensures Derives(k, ts, BinaryE(if k == 1 then "||" else if k == 2 then "&&" else ts[i].value, left, right))
  {
    OperatorLevel(k, ts[i].ty);
    assert DerivesAt(k, ts, BinaryE(OpText(k, ts[i]), left, right), i);
  }

  lemma OperatorLevel(k: nat, ty: TokenType)
    ensures BinaryOp(k, ty) <==> Binds(ty, k)
  {
  }

  lemma ElvisTree(ts: seq<Token>, i: nat, left: Expr, right: Expr)
    requires i + 1 < |ts| && ts[i].Is(Question) && ts[i + 1].Is(Colon)
    requires Derives(0, ts[..i], left) && Derives(1, ts[i + 2..], right)
    ensures Derives(0, ts, ElvisE(left, right))
  {
    assert DerivesAt(ELVIS, ts, ElvisE(left, right), i);
  }

  lemma TestTree(ts: seq<Token>, i: nat, left: Expr, name: string)
    requires i + 2 == |ts| && ts[i] == Token(Ident, "is") && ts[i + 1] == Token(Ident, name)
      && Derives(5, ts[..i], left)
    ensures Derives(5, ts, CastE(left, name))
  {
    MakeIs(ts, i, left);
  }

  /** `!`, `-` and `&` in front of an operand. */
  lemma UnaryTree(ts: seq<Token>, operand: Expr)
    requires ts != [] && (ts[0].Is(Not) || ts[0].Is(Minus) || ts[0].Is(Amp)) && Derives(8, ts[1..], operand)
    ensures Derives(8, ts, UnaryE(if ts[0].Is(Amp) then "&" else ts[0].value, operand))
  {
    assert DerivesAt(UNARY, ts, UnaryE(UnaryText(ts[0]), operand), 0);
  }

  // ------------------------------------------------------------------ words

  /** The tree of a single token. */
  predicate Atom(t: Token, e: Expr) {
    match t.ty
    case IntLiteral => e == IntE(t.value)
    case FloatLiteral => e == FloatE(t.value)
    case StringLiteral => e == StringE(t.value)
    case CharLiteral => e == StringE(t.value)
    case Ident => WordTree(t.value, e)
    case Print => WordTree(t.value, e)
    case Range => WordTree(t.value, e)
    case _ => false
  }

  predicate WordTree(v: string, e: Expr) {
    if v == "true" then e == BoolE(true)
    else if v == "false" then e == BoolE(false)
    else if v == "null" then e == NullE
    else if v == "this" then e == ThisE
    else e == IdentE(v)
  }

  /** A single token is a phrase exactly as the table says. */
  lemma OneToken(t: Token, e: Expr)
    ensures Derives(ELVIS, [t], e) <==> Atom(t, e)
  {
    OneTokenAt(ELVIS, t, e);
    assert DerivesPrimary([t], e) <==> Atom(t, e);
  }

  lemma {:induction false} OneTokenAt(k: nat, t: Token, e: Expr)
    requires k <= PRIMARY
    ensures Derives(k, [t], e) <==> DerivesPrimary([t], e)
    decreases PRIMARY - k
  {
    if k < PRIMARY {
      OneTokenAt(k + 1, t, e);
      if i: nat :| DerivesAt(k, [t], e, i) { NoOperand(k, t, e, i); }
    }
  }

  /** An operator needs an operand. */
  lemma NoOperand(k: nat, t: Token, e: Expr, i: nat)
    requires k < PRIMARY
    ensures !DerivesAt(k, [t], e, i)
  {
    if DerivesAt(k, [t], e, i) {
      assert [t][..0] == [] && [t][1..] == [];
      if k == POSTFIX {
        assert DerivesPostfix([t], e, i);
        FirstToken(k, [], if e.CallE? then e.callee else e.recv);
      } else if k == UNARY {
        FirstToken(k, [], e.operand);
      } else if k != ELVIS && k != IS {
        FirstToken(k, [], e.left);
      }
    }
  }

  /** The tree of a word and arguments behind it: a constructor for a capitalised
      word, `println` for the keyword `print`, else a call of the word. */
  function Called(t: Token, args: seq<Expr>): Expr {
    var v := t.value;
    if v == "true" then CallE(BoolE(true), args)
    else if v == "false" then CallE(BoolE(false), args)
    else if v == "null" then CallE(NullE, args)
    else if v == "this" then CallE(ThisE, args)
    else if v != "" && 'A' <= v[0] <= 'Z' then NewE(v, args)
    else if t.Is(Print) then CallE(IdentE("println"), args)
    else CallE(IdentE(v), args)
  }

  lemma WordCalled(t: Token, paren: Token, a: seq<Token>, args: seq<Expr>, e: Expr)
    requires t.Is(Ident) || t.Is(Print) || t.Is(Range)
    requires paren.Is(LParen) && DerivesArgs(a, args)
    ensures Derives(ELVIS, [t, paren] + a, e) <==> e == Called(t, args)
  {
    var whole := [t, paren] + a;
    assert whole[..1] == [t] && whole[1..] == [paren] + a && whole[2..] == a;
    if Grabs(t) { Taken(whole, args); } else { NotTaken(whole, args); }
    if Derives(ELVIS, whole, e) { Unambiguous(whole, e, Called(t, args)); }
  }

  lemma Taken(whole: seq<Token>, args: seq<Expr>)
    requires |whole| > 2 && Word(whole[0].ty) && Grabs(whole[0]) && whole[1].Is(LParen) && DerivesArgs(whole[2..], args)
    ensures Derives(ELVIS, whole, Called(whole[0], args))
  {
    assert GrabExpr(whole[0], args) == Called(whole[0], args);
    assert DerivesPrimary(whole, Called(whole[0], args));
    Lift(ELVIS, PRIMARY, whole, Called(whole[0], args));
  }

  lemma NotTaken(whole: seq<Token>, args: seq<Expr>)
    requires |whole| > 2 && Word(whole[0].ty) && !Grabs(whole[0]) && whole[1].Is(LParen)
      && DerivesArgs(whole[2..], args)
    ensures Derives(ELVIS, whole, Called(whole[0], args))
  {
    var x := WordExpr(whole[0].value);
    assert whole[..1] == [whole[0]];
    assert DerivesPrimary([whole[0]], x);
    Lift(POSTFIX, PRIMARY, [whole[0]], x);
    CallPhrase(whole, 1, x, args);
    Lift(ELVIS, POSTFIX, whole, CallE(x, args));
  }
}
