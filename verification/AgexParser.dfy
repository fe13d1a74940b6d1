/** The parser object: a cursor over the tokens.  Its methods are proved to compute
    the functions of AgexExprParser and AgexStmtParser, and keep the cursor on a
    token. */
module AgexParser {
  import opened AgexAst
  import opened AgexExprParser
  import opened AgexStmtParser
  import opened Wrappers

  datatype Result<+T> = Ok(value: T) | Err(error: ParseError) {
    predicate IsFailure() { Err? }
    function PropagateFailure<U>(): Result<U> requires Err? { Err(error) }
    function Extract(): T requires Ok? { value }
  }

  /** The tokens from index `i` on. */
  ghost function From(toks: seq<Token>, i: nat): (r: seq<Token>)
    ensures i <= |toks| ==> |r| == |toks| - i
    decreases |toks| - i
  {
    if i >= |toks| then [] else [toks[i]] + From(toks, i + 1)
  }

  /** The head of the remaining tokens and what eating it leaves. */
  lemma Tail(toks: seq<Token>, i: nat)
    requires i < |toks| && toks[|toks| - 1].Is(Eof)
    ensures From(toks, i) != [] && From(toks, i)[0] == toks[i] && From(toks, i)[1..] == From(toks, i + 1)
    ensures !toks[i].Is(Eof) ==>
      |From(toks, i)| > 1 && From(toks, i)[1] == toks[i + 1] && From(toks, i)[2..] == From(toks, i + 2)
  {
    assert !toks[i].Is(Eof) ==> From(toks, i + 1)[1..] == From(toks, i + 2);
  }

  lemma FromSlice(toks: seq<Token>, i: nat, n: nat)
    requires i + n <= |toks|
    ensures |From(toks, i)| == |toks| - i && From(toks, i)[n..] == From(toks, i + n)
  {
    FromIsDrop(toks, i);
    FromIsDrop(toks, i + n);
    assert toks[i..][n..] == toks[i + n..];
  }

  lemma FromStep(toks: seq<Token>, i: nat, n: nat)
    requires i + n < |toks| && toks[|toks| - 1].Is(Eof)
    ensures var ts := From(toks, i);
      && |ts| > n && ts[n] == toks[i + n] && ts[n..] == From(toks, i + n) && ts[n + 1..] == From(toks, i + n + 1)
      && (i + n + 2 <= |toks| ==> ts[n + 2..] == From(toks, i + n + 2))
  {
    FromSlice(toks, i, n);
    FromSlice(toks, i, n + 1);
    if i + n + 2 <= |toks| { FromSlice(toks, i, n + 2); }
    FromIsDrop(toks, i);
  }

  /** The rest of a member call, from its arguments on. */
  ghost function AfterArgs(x: Expr, name: string, n: nat, ts: seq<Token>): Parse<Expr> {
    match ParseArgs(ts)
    case Parsed(args, rest) => PostfixLoop(MemberCall(x, name, n, args), rest)
    case Stuck(e) => Stuck(e)
  }

  /** The rest of a member access, from the member name on. */
  ghost function AfterDot(x: Expr, n: nat, toks: seq<Token>, i: nat): Parse<Expr>
    requires i < |toks|
  {
    if !toks[i].Is(Ident) then Stuck(Unexpected(Expected(Ident), toks[i]))
    else if i + 1 < |toks| && toks[i + 1].Is(LParen) then AfterArgs(x, toks[i].value, n, From(toks, i + 2))
    else PostfixLoop(Member(x, toks[i].value, n), From(toks, i + 1))
  }

  /** The member rule on the tokens from `start`, `n` of them operator. */
  lemma MemberStep(x: Expr, toks: seq<Token>, start: nat, n: nat)
    requires 1 <= n && start + n < |toks| && toks[|toks| - 1].Is(Eof)
    ensures n <= |From(toks, start)| && MemberLoop(x, From(toks, start), n) == AfterDot(x, n, toks, start + n)
  {
    FromStep(toks, start, n);
    Tail(toks, start + n);
  }

  lemma UnaryStep(toks: seq<Token>, i: nat)
    requires i < |toks| && toks[|toks| - 1].Is(Eof)
    ensures ParseLevel(UNARY, From(toks, i)) ==
      if !toks[i].Is(Not) && !toks[i].Is(Minus) && !toks[i].Is(Amp) then ParseLevel(POSTFIX, From(toks, i))
      else
        match ParseLevel(UNARY, From(toks, i + 1))
        case Parsed(x, rest) => Parsed(UnaryE(if toks[i].Is(Amp) then "&" else toks[i].value, x), rest)
        case Stuck(e) => Stuck(e)
  {
    Tail(toks, i);
  }

  /** One turn of the loop of `*`, `/` and `%` at token `i`. */
  lemma FactorStep(left: Expr, toks: seq<Token>, i: nat)
    requires i < |toks| && toks[|toks| - 1].Is(Eof) && BinaryOp(MUL, toks[i].ty)
    ensures Loop(MUL, left, From(toks, i)) ==
      var right := ParseLevel(UNARY, From(toks, i + 1));
      if right.Parsed? then Loop(MUL, BinaryE(toks[i].value, left, right.value), right.rest) else Stuck(right.error)
  {
    Tail(toks, i);
  }

  /** One turn of the postfix loop at token `i`, but for calls. */
  lemma PostfixStep(x: Expr, toks: seq<Token>, i: nat)
    requires i < |toks| && toks[|toks| - 1].Is(Eof) && !toks[i].Is(LParen)
    ensures toks[i].Is(Question) ==> i + 1 < |toks| && |From(toks, i)| >= 2
    ensures PostfixLoop(x, From(toks, i)) ==
      if toks[i].Is(Dot) then MemberLoop(x, From(toks, i), 1)
      else if toks[i].Is(Question) && toks[i + 1].Is(Dot) then MemberLoop(x, From(toks, i), 2)
      else Parsed(x, From(toks, i))
  {
    Tail(toks, i);
  }

  lemma {:induction false} FromIsDrop(toks: seq<Token>, i: nat)
    requires i <= |toks|
    ensures From(toks, i) == toks[i..]
    decreases |toks| - i
  {
    if i < |toks| { FromIsDrop(toks, i + 1); }
  }

  /** A method's result and the cursor `p` it leaves are what `spec` says. */
  predicate Found<T(==)>(r: Result<T>, p: nat, spec: Read<T>) {
    match spec
    case Got(v, j) => r == Ok(v) && p == j
    case Lost(e) => r == Err(e)
  }

  /** Elements already read, in front of what is still to be read. */
  ghost function Ahead<T>(xs: seq<T>, r: Read<seq<T>>): Read<seq<T>> {
    match r
    case Got(ys, j) => Got(xs + ys, j)
    case Lost(e) => Lost(e)
  }

  lemma AheadStep<T>(xs: seq<T>, x: T, r: Read<seq<T>>)
    ensures Ahead(xs, Ahead([x], r)) == Ahead(xs + [x], r)
  {
    if r.Got? { assert xs + ([x] + r.value) == xs + [x] + r.value; }
  }

  lemma AheadNone<T>(xs: seq<T>, r: Read<seq<T>>)
    ensures xs == [] ==> Ahead(xs, r) == r
    ensures r.Got? && r.value == [] ==> Ahead(xs, r) == Got(xs, r.next)
  {
    if r.Got? {
      assert xs == [] ==> xs + r.value == r.value;
      assert r.value == [] ==> xs + r.value == xs;
    }
  }

  /** `names` have been read from `start` up to `p`. */
  ghost predicate AfterNames(toks: seq<Token>, start: nat, mark: TokenType, names: seq<string>, p: nat) {
    NamesAt(toks, start, mark) ==
      if Tok(toks, p, mark) then Ahead(names, NamesAt(toks, p + 1, mark)) else Got(names, p)
  }

  lemma FirstName(toks: seq<Token>, i: nat, mark: TokenType)
    ensures var r := EatAt(toks, i, Ident);
      if r.Got? then AfterNames(toks, i, mark, [r.value.value], r.next) else NamesAt(toks, i, mark) == Lost(r.error)
  {
  }

  lemma NextName(toks: seq<Token>, start: nat, mark: TokenType, names: seq<string>, p: nat)
    requires AfterNames(toks, start, mark, names, p) && Tok(toks, p, mark)
    ensures var r := NameAfter(toks, p, mark);
      if r.Got? then AfterNames(toks, start, mark, names + [r.value], r.next)
        else NamesAt(toks, start, mark) == Lost(r.error)
  {
    FirstName(toks, p + 1, mark);
    if Tok(toks, p + 1, Ident) && Tok(toks, p + 2, mark) {
      AheadStep(names, toks[p + 1].value, NamesAt(toks, p + 3, mark));
    }
  }

  lemma DotsOne(name: string)
    ensures Dots([name]) == name
  {
  }

  lemma DotsMore(names: seq<string>, name: string)
    requires names != []
    ensures Dots(names + [name]) == Dots(names) + "." + name
  {
    assert (names + [name])[..|names|] == names;
  }

  lemma NamesEnd(toks: seq<Token>, start: nat, mark: TokenType, names: seq<string>, p: nat)
    requires AfterNames(toks, start, mark, names, p) && !Tok(toks, p, mark)
    ensures NamesAt(toks, start, mark) == Got(names, p)
  {
  }

  /** `bases` have been read from `start` up to `p`. */
  ghost predicate AfterBases(toks: seq<Token>, start: nat, bases: seq<string>, p: nat) {
    BasesAt(toks, start) == if Tok(toks, p, Comma) then Ahead(bases, BasesAt(toks, p + 1)) else Got(bases, p)
  }

  lemma FirstBase(toks: seq<Token>, i: nat)
    ensures var r := EatAt(toks, i, Ident);
      if r.Got? then AfterBases(toks, i, [r.value.value], SkipParens(toks, r.next))
        else BasesAt(toks, i) == Lost(r.error)
  {
  }

  lemma NextBase(toks: seq<Token>, start: nat, bases: seq<string>, p: nat)
    requires AfterBases(toks, start, bases, p) && Tok(toks, p, Comma)
    ensures var r := NameAfter(toks, p, Comma);
      if r.Got? then AfterBases(toks, start, bases + [r.value], SkipParens(toks, r.next))
      else BasesAt(toks, start) == Lost(r.error)
  {
    FirstBase(toks, p + 1);
    if Tok(toks, p + 1, Ident) {
      var j := SkipParens(toks, p + 2);
      if Tok(toks, j, Comma) { AheadStep(bases, toks[p + 1].value, BasesAt(toks, j + 1)); }
    }
  }

  lemma BasesEnd(toks: seq<Token>, start: nat, bases: seq<string>, p: nat)
    requires AfterBases(toks, start, bases, p) && !Tok(toks, p, Comma)
    ensures BasesAt(toks, start) == Got(bases, p)
  {
  }

  class Parser {
    const toks: seq<Token>
    var pos: nat

    /** The tokens end in an end-of-input token and the cursor is on one of them. */
    ghost predicate Valid() reads this {
      pos < |toks| && toks[|toks| - 1].Is(Eof)
    }

    constructor (ts: seq<Token>)
      requires ts != [] && ts[|ts| - 1].Is(Eof)
      ensures Valid() && toks == ts && pos == 0
    {
      toks, pos := ts, 0;
    }

    /** The tokens from the cursor on. */
    ghost function Rest(): seq<Token>
      reads this
      requires Valid()
    {
      From(toks, pos)
    }

    /** A method's result together with the tokens it left. */
    ghost function Outcome<T>(r: Result<T>): Parse<T>
      reads this
      requires Valid()
    {
      if r.Ok? then Parsed(r.value, Rest()) else Stuck(r.error)
    }

    /** The method's result and the new cursor are what `spec` says. */
    ghost predicate Agrees<T>(r: Result<T>, spec: Parse<T>)
      reads this
      requires Valid()
    {
      Outcome(r) == spec
    }

    // -------------------------------------------------------------- cursor

    function Peek(off: nat): Token
      reads this
      requires Valid()
    {
      if pos + off < |toks| then toks[pos + off] else toks[|toks| - 1]
    }

    function CurTok(): Token
      reads this
      requires Valid()
    {
      toks[pos]
    }

    predicate AtTok(ty: TokenType)
      reads this
      requires Valid()
    {
      CurTok().Is(ty)
    }

    method Eat(ty: TokenType) returns (r: Result<Token>)
      requires Valid() && ty != Eof
      modifies this
      ensures Valid()
      ensures if old(AtTok(ty)) then r == Ok(old(CurTok())) && pos == old(pos) + 1
              else r == Err(Unexpected(Expected(ty), old(CurTok()))) && pos == old(pos)
      ensures Found(r, pos, EatAt(toks, old(pos), ty))
    {
      if !AtTok(ty) {
        return Err(Unexpected(Expected(ty), CurTok()));
      }
      var t := toks[pos];
      pos := pos + 1;
      return Ok(t);
    }

    /** `eat` of a token whose type is known: it cannot fail. */
    method Bump() returns (t: Token)
      requires Valid() && !AtTok(Eof)
      modifies this
      ensures Valid() && t == old(CurTok()) && pos == old(pos) + 1
    {
      t := toks[pos];
      pos := pos + 1;
    }

    method Maybe(ty: TokenType) returns (r: Option<Token>)
      requires Valid() && ty != Eof
      modifies this
      ensures Valid()
      ensures if old(AtTok(ty)) then r == Some(old(CurTok())) && pos == old(pos) + 1 else r == None && pos == old(pos)
    {
      if AtTok(ty) {
        var t := toks[pos];
        pos := pos + 1;
        return Some(t);
      }
      return None;
    }

    /** A name behind a token of type `ty`. */
    method EatNamed(ty: TokenType) returns (r: Result<string>)
      requires Valid() && ty != Eof
      modifies this
      ensures Valid() && pos >= old(pos) && Found(r, pos, NameAfter(toks, old(pos), ty))
      ensures r.Ok? ==> pos > old(pos)
    {
      hide EatAt;
      var _ :- Eat(ty);
      var name :- Eat(Ident);
      return Ok(name.value);
    }

    // --------------------------------------------------------- expressions

    /** In the loop of level `k`, entered at `start`: what is still to be read
        completes `left` to the level's result. */
    ghost predicate InLoop(k: nat, left: Expr, start: nat)
      reads this
      requires k < UNARY && start < |toks|
    {
      Valid() && pos > start && Loop(k, left, Rest()) == ParseLevel(k, From(toks, start))
    }

    /** The same in an argument list that starts at `start`. */
    ghost predicate InArgs(args: seq<Expr>, start: nat)
      reads this
      requires start < |toks|
    {
      Valid() && pos > start && ArgsTail(args, Rest()) == ParseArgs(From(toks, start))
    }

    method ParseExpr() returns (r: Result<Expr>)
      requires Valid()
      modifies this
      ensures Valid() && Agrees(r, ParseLevel(ELVIS, old(Rest())))
      ensures pos >= old(pos)
      ensures r.Ok? ==> pos > old(pos)
      decreases |toks| - pos, 21
    {
      r := ParseElvis();
    }

    method ParseElvis() returns (r: Result<Expr>)
      requires Valid()
      modifies this
      ensures Valid() && Agrees(r, ParseLevel(ELVIS, old(Rest())))
      ensures pos >= old(pos)
      ensures r.Ok? ==> pos > old(pos)
      decreases |toks| - pos, 20 - ELVIS
    {
      var left :- ParseOr();
      while AtTok(Question) && Peek(1).Is(Colon)
        invariant InLoop(ELVIS, left, old(pos))
        decreases |toks| - pos
      {
        Tail(toks, pos);
        var _ := Bump();
        var _ := Bump();
        var right :- ParseOr();
        left := ElvisE(left, right);
      }
      Tail(toks, pos);
      return Ok(left);
    }

    method ParseOr() returns (r: Result<Expr>)
      requires Valid()
      modifies this
      ensures Valid() && Agrees(r, ParseLevel(OR, old(Rest())))
      ensures pos >= old(pos)
      ensures r.Ok? ==> pos > old(pos)
      decreases |toks| - pos, 20 - OR
    {
      var left :- ParseAnd();
      while AtTok(Or)
        invariant InLoop(OR, left, old(pos))
        decreases |toks| - pos
      {
        var _ := Bump();
        var right :- ParseAnd();
        left := BinaryE("||", left, right);
      }
      return Ok(left);
    }

    method ParseAnd() returns (r: Result<Expr>)
      requires Valid()
      modifies this
      ensures Valid() && Agrees(r, ParseLevel(AND, old(Rest())))
      ensures pos >= old(pos)
      ensures r.Ok? ==> pos > old(pos)
      decreases |toks| - pos, 20 - AND
    {
      var left :- ParseEq();
      while AtTok(And)
        invariant InLoop(AND, left, old(pos))
        decreases |toks| - pos
      {
        var _ := Bump();
        var right :- ParseEq();
        left := BinaryE("&&", left, right);
      }
      return Ok(left);
    }

    method ParseEq() returns (r: Result<Expr>)
      requires Valid()
      modifies this
      ensures Valid() && Agrees(r, ParseLevel(EQ, old(Rest())))
      ensures pos >= old(pos)
      ensures r.Ok? ==> pos > old(pos)
      decreases |toks| - pos, 20 - EQ
    {
      var left :- ParseCmp();
      while BinaryOp(EQ, CurTok().ty)
        invariant InLoop(EQ, left, old(pos))
        decreases |toks| - pos
      {
        left :- NextComparison(left, ParseLevel(EQ, From(toks, old(pos))));
      }
      Tail(toks, pos);
      return Ok(left);
    }

    /** One turn of that loop: the operator at the cursor and its right operand. */
    method NextComparison(left: Expr, ghost spec: Parse<Expr>) returns (r: Result<Expr>)
      requires Valid() && BinaryOp(EQ, CurTok().ty) && Loop(EQ, left, Rest()) == spec
      modifies this
      ensures Valid() && pos > old(pos)
      ensures spec == if r.Ok? then Loop(EQ, r.value, Rest()) else Stuck(r.error)
      decreases |toks| - pos, 20 - EQ
    {
      Tail(toks, pos);
      var op := Bump();
      var right :- ParseCmp();
      return Ok(BinaryE(op.value, left, right));
    }

    method ParseCmp() returns (r: Result<Expr>)
      requires Valid()
      modifies this
      ensures Valid() && Agrees(r, ParseLevel(CMP, old(Rest())))
      ensures pos >= old(pos)
      ensures r.Ok? ==> pos > old(pos)
      decreases |toks| - pos, 20 - CMP
    {
      var left :- ParseIs();
      while BinaryOp(CMP, CurTok().ty)
        invariant InLoop(CMP, left, old(pos))
        decreases |toks| - pos
      {
        left :- NextOperand(left, ParseLevel(CMP, From(toks, old(pos))));
      }
      Tail(toks, pos);
      return Ok(left);
    }

    /** One turn of that loop: the operator at the cursor and its right operand. */
    method NextOperand(left: Expr, ghost spec: Parse<Expr>) returns (r: Result<Expr>)
      requires Valid() && BinaryOp(CMP, CurTok().ty) && Loop(CMP, left, Rest()) == spec
      modifies this
      ensures Valid() && pos > old(pos)
      ensures spec == if r.Ok? then Loop(CMP, r.value, Rest()) else Stuck(r.error)
      decreases |toks| - pos, 20 - CMP
    {
      Tail(toks, pos);
      var op := Bump();
      var right :- ParseIs();
      return Ok(BinaryE(op.value, left, right));
    }

    method ParseIs() returns (r: Result<Expr>)
      requires Valid()
      modifies this
      ensures Valid() && Agrees(r, ParseLevel(IS, old(Rest())))
      ensures pos >= old(pos)
      ensures r.Ok? ==> pos > old(pos)
      decreases |toks| - pos, 20 - IS
    {
      var left :- ParseAdd();
      while AtTok(Ident) && CurTok().value == "is"
        invariant InLoop(IS, left, old(pos))
        decreases |toks| - pos
      {
        left :- NextType(left, ParseLevel(IS, From(toks, old(pos))));
      }
      Tail(toks, pos);
      return Ok(left);
    }

    /** One turn of that loop: `is` and a type name. */
    method NextType(left: Expr, ghost spec: Parse<Expr>) returns (r: Result<Expr>)
      requires Valid() && AtTok(Ident) && CurTok().value == "is" && Loop(IS, left, Rest()) == spec
      modifies this
      ensures Valid() && pos > old(pos)
      ensures spec == if r.Ok? then Loop(IS, r.value, Rest()) else Stuck(r.error)
    {
      Tail(toks, pos);
      var _ := Bump();
      Tail(toks, pos);
      var name :- Eat(Ident);
      return Ok(CastE(left, name.value));
    }

    method ParseAdd() returns (r: Result<Expr>)
      requires Valid()
      modifies this
      ensures Valid() && Agrees(r, ParseLevel(ADD, old(Rest())))
      ensures pos >= old(pos)
      ensures r.Ok? ==> pos > old(pos)
      decreases |toks| - pos, 20 - ADD
    {
      var left :- ParseMul();
      while BinaryOp(ADD, CurTok().ty)
        invariant InLoop(ADD, left, old(pos))
        decreases |toks| - pos
      {
        left :- NextTerm(left, ParseLevel(ADD, From(toks, old(pos))));
      }
      Tail(toks, pos);
      return Ok(left);
    }

    /** One turn of that loop: the operator at the cursor and its right operand. */
    method NextTerm(left: Expr, ghost spec: Parse<Expr>) returns (r: Result<Expr>)
      requires Valid() && BinaryOp(ADD, CurTok().ty) && Loop(ADD, left, Rest()) == spec
      modifies this
      ensures Valid() && pos > old(pos)
      ensures spec == if r.Ok? then Loop(ADD, r.value, Rest()) else Stuck(r.error)
      decreases |toks| - pos, 20 - ADD
    {
      Tail(toks, pos);
      var op := Bump();
      var right :- ParseMul();
      return Ok(BinaryE(op.value, left, right));
    }

    method ParseMul() returns (r: Result<Expr>)
      requires Valid()
      modifies this
      ensures Valid() && Agrees(r, ParseLevel(MUL, old(Rest())))
      ensures pos >= old(pos)
      ensures r.Ok? ==> pos > old(pos)
      decreases |toks| - pos, 20 - MUL
    {
      var left :- ParseUnary();
      while BinaryOp(MUL, CurTok().ty)
        invariant InLoop(MUL, left, old(pos))
        decreases |toks| - pos
      {
        left :- NextFactor(left, ParseLevel(MUL, From(toks, old(pos))));
      }
      Tail(toks, pos);
      return Ok(left);
    }

    /** One turn of that loop: the operator at the cursor and its right operand. */
    method NextFactor(left: Expr, ghost spec: Parse<Expr>) returns (r: Result<Expr>)
      requires Valid() && BinaryOp(MUL, CurTok().ty) && Loop(MUL, left, Rest()) == spec
      modifies this
      ensures Valid() && pos > old(pos)
      ensures spec == if r.Ok? then Loop(MUL, r.value, Rest()) else Stuck(r.error)
      decreases |toks| - pos, 20 - MUL
    {
      hide Loop, ParseLevel;
      FactorStep(left, toks, pos);
      var op := Bump();
      var right :- ParseUnary();
      return Ok(BinaryE(op.value, left, right));
    }

    method ParseUnary() returns (r: Result<Expr>)
      requires Valid()
      modifies this
      ensures Valid() && Agrees(r, ParseLevel(UNARY, old(Rest())))
      ensures pos >= old(pos)
      ensures r.Ok? ==> pos > old(pos)
      decreases |toks| - pos, 20 - UNARY
    {
      hide ParseLevel;
      UnaryStep(toks, pos);
      if CurTok().Is(Not) || CurTok().Is(Minus) {
        var op := Bump();
        var operand :- ParseUnary();
        return Ok(UnaryE(op.value, operand));
      }
      if AtTok(Amp) {
        r := ParseReference();
        return;
      }
      r := ParsePostfix();
    }

    /** `&` and its operand. */
    method ParseReference() returns (r: Result<Expr>)
      requires Valid() && AtTok(Amp)
      modifies this
      ensures Valid() && Agrees(r, ParseLevel(UNARY, old(Rest())))
      ensures pos >= old(pos)
      ensures r.Ok? ==> pos > old(pos)
      decreases |toks| - pos, 0
    {
      var _ := Bump();
      var operand :- ParseUnary();
      return Ok(UnaryE("&", operand));
    }

    /** The argument list after an opening parenthesis, with its closing one. */
    method ParseArgList() returns (r: Result<seq<Expr>>)
      requires Valid()
      modifies this
      ensures Valid() && Agrees(r, ParseArgs(old(Rest())))
      ensures pos >= old(pos)
      ensures r.Ok? ==> pos > old(pos)
      decreases |toks| - pos, 22
    {
      Tail(toks, pos);
      if AtTok(RParen) {
        var _ := Bump();
        return Ok([]);
      }
      var first :- ParseExpr();
      var args := [first];
      Tail(toks, pos);
      while AtTok(Comma)
        invariant InArgs(args, old(pos))
        decreases |toks| - pos
      {
        Tail(toks, pos);
        var _ := Bump();
        var next :- ParseExpr();
        args := args + [next];
      }
      r := CloseArgs(args);
    }

    /** The closing parenthesis of an argument list. */
    method CloseArgs(args: seq<Expr>) returns (r: Result<seq<Expr>>)
      requires Valid() && !AtTok(Comma)
      modifies this
      ensures Valid() && Agrees(r, ArgsTail(args, From(toks, old(pos))))
      ensures pos >= old(pos)
    {
      Tail(toks, pos);
      var _ :- Eat(RParen);
      return Ok(args);
    }

    /** A member name after `.` (n == 1) or `?.` (n == 2), and its arguments. */
    method ParseMember(x: Expr, n: nat, ghost spec: Parse<Expr>) returns (r: Result<Expr>)
      requires Valid() && 1 <= n <= 2 && AfterDot(x, n, toks, pos) == spec
      modifies this
      ensures Valid() && pos >= old(pos)
      ensures r.Ok? ==> pos > old(pos)
      ensures spec == if r.Ok? then PostfixLoop(r.value, Rest()) else Stuck(r.error)
      decreases |toks| - pos, 23
    {
      var name :- Eat(Ident);
      if AtTok(LParen) {
        var _ := Bump();
        r := ParseMemberArgs(x, name.value, n, spec);
        return;
      }
      return Ok(Member(x, name.value, n));
    }

    /** The arguments of a member call, after the parenthesis that opens them. */
    method ParseMemberArgs(x: Expr, name: string, n: nat, ghost spec: Parse<Expr>) returns (r: Result<Expr>)
      requires Valid() && AfterArgs(x, name, n, Rest()) == spec
      modifies this
      ensures Valid() && pos >= old(pos)
      ensures r.Ok? ==> pos > old(pos)
      ensures spec == if r.Ok? then PostfixLoop(r.value, Rest()) else Stuck(r.error)
      decreases |toks| - pos, 23
    {
      var args :- ParseArgList();
      return Ok(MemberCall(x, name, n, args));
    }

    /** A call's arguments, after the parenthesis that opens them. */
    method ParseCall(x: Expr, ghost spec: Parse<Expr>) returns (r: Result<Expr>)
      requires Valid() && pos > 0 && toks[pos - 1].Is(LParen) && PostfixLoop(x, From(toks, pos - 1)) == spec
      modifies this
      ensures Valid() && pos >= old(pos)
      ensures r.Ok? ==> pos > old(pos)
      ensures spec == if r.Ok? then PostfixLoop(r.value, Rest()) else Stuck(r.error)
      decreases |toks| - pos, 23
    {
      Tail(toks, pos - 1);
      var args :- ParseArgList();
      return Ok(CallE(x, args));
    }

    method ParsePostfix() returns (r: Result<Expr>)
      requires Valid()
      modifies this
      ensures Valid() && Agrees(r, ParseLevel(POSTFIX, old(Rest())))
      ensures pos >= old(pos)
      ensures r.Ok? ==> pos > old(pos)
      decreases |toks| - pos, 20 - POSTFIX
    {
      ghost var spec := ParseLevel(POSTFIX, Rest());
      var expr :- ParsePrimaryExpr();
      while AtTok(Dot) || (AtTok(Question) && Peek(1).Is(Dot)) || AtTok(LParen)
        invariant Valid() && pos > old(pos)
        invariant PostfixLoop(expr, Rest()) == spec
        decreases |toks| - pos
      {
        expr :- NextPostfix(expr, spec);
      }
      PostfixStep(expr, toks, pos);
      return Ok(expr);
    }

    /** One turn of that loop: a member access or a call. */
    method NextPostfix(x: Expr, ghost spec: Parse<Expr>) returns (r: Result<Expr>)
      requires Valid() && (AtTok(Dot) || (AtTok(Question) && Peek(1).Is(Dot)) || AtTok(LParen))
      requires PostfixLoop(x, Rest()) == spec
      modifies this
      ensures Valid() && pos > old(pos)
      ensures spec == if r.Ok? then PostfixLoop(r.value, Rest()) else Stuck(r.error)
      decreases |toks| - pos, 20 - POSTFIX
    {
      hide MemberLoop, AfterDot, ParseLevel;
      if !AtTok(LParen) { PostfixStep(x, toks, pos); }
      if AtTok(Dot) {
        MemberStep(x, toks, pos, 1);
        var _ := Bump();
        r := ParseMember(x, 1, spec);
      } else if AtTok(Question) {
        MemberStep(x, toks, pos, 2);
        var _ := Bump();
        var _ := Bump();
        r := ParseMember(x, 2, spec);
      } else {
        var _ := Bump();
        r := ParseCall(x, spec);
      }
    }

    method ParsePrimaryExpr() returns (r: Result<Expr>)
      requires Valid()
      modifies this
      ensures Valid() && Agrees(r, ParseLevel(PRIMARY, old(Rest())))
      ensures pos >= old(pos)
      ensures r.Ok? ==> pos > old(pos)
      decreases |toks| - pos, 20 - PRIMARY
    {
      var tok := CurTok();
      Tail(toks, pos);
      match tok.ty {
        case IntLiteral =>
          var _ := Bump();
          return Ok(IntE(tok.value));
        case FloatLiteral =>
          var _ := Bump();
          return Ok(FloatE(tok.value));
        case StringLiteral =>
          var _ := Bump();
          return Ok(StringE(tok.value));
        case CharLiteral =>
          var _ := Bump();
          return Ok(StringE(tok.value));
        case LParen => r := ParseParens();
        case Ident => r := ParseWordExpr();
        case Print => r := ParseWordExpr();
        case Range => r := ParseWordExpr();
        case _ =>
          return Err(Unexpected(InExpression, tok));
      }
    }

    /** The branch of `parse_primary` for a parenthesised expression. */
    method ParseParens() returns (r: Result<Expr>)
      requires Valid() && AtTok(LParen)
      modifies this
      ensures Valid() && Agrees(r, ParsePrimary(old(Rest())))
      ensures pos >= old(pos)
      ensures r.Ok? ==> pos > old(pos)
      decreases |toks| - pos, 9
    {
      Tail(toks, pos);
      var _ := Bump();
      var e :- ParseExpr();
      Tail(toks, pos);
      var _ :- Eat(RParen);
      return Ok(e);
    }

    /** The branch of `parse_primary` for identifiers, `print` and `range`. */
    method ParseWordExpr() returns (r: Result<Expr>)
      requires Valid() && Word(CurTok().ty)
      modifies this
      ensures Valid() && Agrees(r, ParseWord(old(Rest())))
      ensures pos >= old(pos)
      ensures r.Ok? ==> pos > old(pos)
      decreases |toks| - pos, 9
    {
      var isPrint := AtTok(Print);
      Tail(toks, pos);
      var tok := Bump();
      var value := tok.value;
      if value == "true" || value == "false" {
        return Ok(BoolE(value == "true"));
      }
      if value == "null" {
        return Ok(NullE);
      }
      if value == "this" {
        return Ok(ThisE);
      }
      if AtTok(LParen) && value != "" && IsUpper(value[0]) {
        var _ := Bump();
        var args :- ParseArgList();
        return Ok(NewE(value, args));
      }
      if isPrint && AtTok(LParen) {
        var _ := Bump();
        var args :- ParseArgList();
        return Ok(CallE(IdentE("println"), args));
      }
      return Ok(IdentE(value));
    }

    // ---------------------------------------------- expressions in statements

    method ReadExpr() returns (r: Result<Expr>)
      requires Valid()
      modifies this
      ensures Valid() && pos >= old(pos) && Found(r, pos, ExprAt(toks, old(pos)))
      ensures r.Ok? ==> pos > old(pos)
      decreases |toks| - pos, 22
    {
      FromIsDrop(toks, pos);
      r := ParseExpr();
      FromIsDrop(toks, pos);
    }

    method ReadArgs() returns (r: Result<seq<Expr>>)
      requires Valid()
      modifies this
      ensures Valid() && pos >= old(pos) && Found(r, pos, ArgsAt(toks, old(pos)))
      decreases |toks| - pos, 31
    {
      FromIsDrop(toks, pos);
      r := ParseArgList();
      FromIsDrop(toks, pos);
    }

    // -------------------------------------------------- types and parameters

    method ParseType() returns (r: Result<TypeNode>)
      requires Valid()
      modifies this
      ensures Valid() && pos >= old(pos) && Found(r, pos, TypeAt(toks, old(pos)))
      ensures r.Ok? ==> pos > old(pos)
      decreases |toks| - pos, 2
    {
      hide BareTypeAt;
      var t :- ParseBareType();
      var question := Maybe(Question);
      if question.Some? { t := Nullable(t); }
      return Ok(t);
    }

    /** A type without its question mark. */
    method ParseBareType() returns (r: Result<TypeNode>)
      requires Valid()
      modifies this
      ensures Valid() && pos >= old(pos) && Found(r, pos, BareTypeAt(toks, old(pos)))
      ensures r.Ok? ==> pos > old(pos)
      decreases |toks| - pos, 1
    {
      hide TypeAt, NamedTypeAt;
      if !AtTok(Star) {
        r := ParseNamedType();
        return;
      }
      var _ := Bump();
      var inner :- ParseType();
      return Ok(PointerType(inner, false));
    }

    method ParseNamedType() returns (r: Result<TypeNode>)
      requires Valid()
      modifies this
      ensures Valid() && pos >= old(pos) && Found(r, pos, NamedTypeAt(toks, old(pos)))
      ensures r.Ok? ==> pos > old(pos)
      decreases |toks| - pos, 0
    {
      hide EatAt, TypesAt;
      var name :- Eat(Ident);
      if !AtTok(LBracket) {
        return Ok(NamedType(name.value, false));
      }
      var _ := Bump();
      var args :- ParseTypes();
      var _ :- Eat(RBracket);
      return Ok(GenericType(name.value, args, false));
    }

    /** The arguments of a generic type. */
    method ParseTypes() returns (r: Result<seq<TypeNode>>)
      requires Valid()
      modifies this
      ensures Valid() && pos >= old(pos) && Found(r, pos, TypesAt(toks, old(pos)))
      decreases |toks| - pos, 3
    {
      hide TypeAt;
      if AtTok(RBracket) {
        return Ok([]);
      }
      var first :- ParseType();
      var args := [first];
      while AtTok(Comma)
        invariant Valid() && pos > old(pos)
        invariant TypesAt(toks, old(pos)) == Ahead(args, MoreTypesAt(toks, pos))
        decreases |toks| - pos
      {
        var _ := Bump();
        var next :- ParseType();
        AheadStep(args, next, MoreTypesAt(toks, pos));
        args := args + [next];
      }
      AheadNone(args, MoreTypesAt(toks, pos));
      return Ok(args);
    }

    /** An optional type behind `mark`. */
    method ParseAnnotation(mark: TokenType) returns (r: Result<TypeNode>)
      requires Valid() && mark != Eof
      modifies this
      ensures Valid() && pos >= old(pos) && Found(r, pos, AnnotationAt(toks, old(pos), mark))
      decreases |toks| - pos, 3
    {
      hide TypeAt;
      var t := INFER;
      var marked := Maybe(mark);
      if marked.Some? { t :- ParseType(); }
      return Ok(t);
    }

    /** An optional value behind `=`. */
    method ParseValue() returns (r: Result<Option<Expr>>)
      requires Valid()
      modifies this
      ensures Valid() && pos >= old(pos) && Found(r, pos, ValueAt(toks, old(pos)))
      decreases |toks| - pos, 30
    {
      hide ExprAt;
      var assign := Maybe(Assign);
      if assign.None? {
        return Ok(None);
      }
      var e :- ReadExpr();
      return Ok(Some(e));
    }

    /** A name, a colon and a type. */
    method ParseTypedName() returns (r: Result<(string, TypeNode)>)
      requires Valid()
      modifies this
      ensures Valid() && pos >= old(pos) && Found(r, pos, TypedNameAt(toks, old(pos)))
      ensures r.Ok? ==> pos > old(pos)
      decreases |toks| - pos, 33
    {
      hide EatAt, TypeAt;
      var name :- Eat(Ident);
      var _ :- Eat(Colon);
      var ty :- ParseType();
      return Ok((name.value, ty));
    }

    method ParseParam() returns (r: Result<Param>)
      requires Valid()
      modifies this
      ensures Valid() && pos >= old(pos) && Found(r, pos, ParamAt(toks, old(pos)))
      ensures r.Ok? ==> pos > old(pos)
      decreases |toks| - pos, 34
    {
      hide TypedNameAt, ValueAt;
      var mutable := false;
      if AtTok(Var) {
        mutable := true;
        var _ := Bump();
      }
      var typed :- ParseTypedName();
      var default :- ParseValue();
      return Ok(Param(typed.0, typed.1, mutable, default));
    }

    method ParseParams() returns (r: Result<seq<Param>>)
      requires Valid()
      modifies this
      ensures Valid() && pos >= old(pos) && Found(r, pos, ParamsAt(toks, old(pos)))
      decreases |toks| - pos, 35
    {
      hide ParamAt;
      var params: seq<Param> := [];
      AheadNone(params, ParamsAt(toks, pos));
      while !AtTok(RParen)
        invariant Valid() && pos >= old(pos)
        invariant ParamsAt(toks, old(pos)) == Ahead(params, ParamsAt(toks, pos))
        decreases |toks| - pos
      {
        var param :- ParseParam();
        AheadStep(params, param, MoreParamsAt(toks, pos));
        params := params + [param];
        if !AtTok(Comma) {
          AheadNone(params, MoreParamsAt(toks, pos));
          return Ok(params);
        }
        var _ := Bump();
      }
      AheadNone(params, ParamsAt(toks, pos));
      return Ok(params);
    }

    /** Parameters in parentheses and an optional result type. */
    method ParseSignature() returns (r: Result<(seq<Param>, TypeNode)>)
      requires Valid()
      modifies this
      ensures Valid() && pos >= old(pos) && Found(r, pos, SignatureAt(toks, old(pos)))
      ensures r.Ok? ==> pos > old(pos)
      decreases |toks| - pos, 36
    {
      hide EatAt, ParamsAt, AnnotationAt;
      var _ :- Eat(LParen);
      var params :- ParseParams();
      var _ :- Eat(RParen);
      var returnType :- ParseAnnotation(Arrow);
      return Ok((params, returnType));
    }

    // ---------------------------------------------------------- statements

    method ParseExprOrAssign() returns (r: Result<Stmt>)
      requires Valid()
      modifies this
      ensures Valid() && pos >= old(pos) && Found(r, pos, PlainStmtAt(toks, old(pos)))
      ensures r.Ok? ==> pos > old(pos)
      decreases |toks| - pos, 30
    {
      hide ExprAt;
      var expr :- ReadExpr();
      var op := AssignOpOf(CurTok().ty);
      if op.Some? {
        var _ := Bump();
        var value :- ReadExpr();
        return Ok(AssignS(expr, op.value, value));
      }
      return Ok(ExprS(expr));
    }

    method ParseStmts() returns (r: Result<seq<Stmt>>)
      requires Valid()
      modifies this
      ensures Valid() && pos >= old(pos) && Found(r, pos, StmtsAt(toks, old(pos)))
      decreases |toks| - pos, 33
    {
      hide StmtAt;
      var out: seq<Stmt> := [];
      AheadNone(out, StmtsAt(toks, pos));
      while !AtTok(RBrace) && !AtTok(Eof)
        invariant Valid() && pos >= old(pos)
        invariant StmtsAt(toks, old(pos)) == Ahead(out, StmtsAt(toks, pos))
        decreases |toks| - pos
      {
        var stmt :- ParseStmt();
        AheadStep(out, stmt, StmtsAt(toks, pos));
        out := out + [stmt];
      }
      AheadNone(out, StmtsAt(toks, pos));
      return Ok(out);
    }

    /** A brace-enclosed list of statements. */
    method ParseBlock() returns (r: Result<seq<Stmt>>)
      requires Valid()
      modifies this
      ensures Valid() && pos >= old(pos) && Found(r, pos, BlockAt(toks, old(pos)))
      ensures r.Ok? ==> pos > old(pos)
      decreases |toks| - pos, 34
    {
      hide EatAt, StmtsAt;
      var _ :- Eat(LBrace);
      var body :- ParseStmts();
      var _ :- Eat(RBrace);
      return Ok(body);
    }

    method ParseStmt() returns (r: Result<Stmt>)
      requires Valid()
      modifies this
      ensures Valid() && pos >= old(pos) && Found(r, pos, StmtAt(toks, old(pos)))
      ensures r.Ok? ==> pos > old(pos)
      decreases |toks| - pos, 32
    {
      hide LetAt, ConstAt, VarAt, ReturnAt, IfAt, ForAt, MatchAt, PrintAt, UnsafeAt, PlainStmtAt;
      match CurTok().ty {
        case Let => r := ParseLet();
        case Const => r := ParseConst();
        case Var => r := ParseVar();
        case Return => r := ParseReturn();
        case If => r := ParseIf();
        case For => r := ParseFor();
        case Match => r := ParseMatch();
        case Print => r := ParsePrint();
        case Unsafe => r := ParseUnsafe();
        case _ => r := ParseExprOrAssign();
      }
    }

    /** The optional type and initial value after a bound name. */
    method ParseBinding() returns (r: Result<(TypeNode, Option<Expr>)>)
      requires Valid()
      modifies this
      ensures Valid() && pos >= old(pos) && Found(r, pos, BindingAt(toks, old(pos)))
      decreases |toks| - pos, 31
    {
      hide AnnotationAt, ValueAt;
      var ty :- ParseAnnotation(Colon);
      var init :- ParseValue();
      return Ok((ty, init));
    }

    method ParseLet() returns (r: Result<Stmt>)
      requires Valid()
      modifies this
      ensures Valid() && pos >= old(pos) && Found(r, pos, LetAt(toks, old(pos)))
      ensures r.Ok? ==> pos > old(pos)
      decreases |toks| - pos, 31
    {
      hide NameAfter, BindingAt;
      var name :- EatNamed(Let);
      var binding :- ParseBinding();
      return Ok(LetS(name, binding.0, binding.1));
    }

    method ParseConst() returns (r: Result<Stmt>)
      requires Valid()
      modifies this
      ensures Valid() && pos >= old(pos) && Found(r, pos, ConstAt(toks, old(pos)))
      ensures r.Ok? ==> pos > old(pos)
      decreases |toks| - pos, 31
    {
      hide NameAfter, BindingAt;
      var name :- EatNamed(Const);
      var binding :- ParseBinding();
      return Ok(ConstS(name, binding.0, binding.1));
    }

    method ParseVar() returns (r: Result<Stmt>)
      requires Valid()
      modifies this
      ensures Valid() && pos >= old(pos) && Found(r, pos, VarAt(toks, old(pos)))
      ensures r.Ok? ==> pos > old(pos)
      decreases |toks| - pos, 31
    {
      hide NameAfter, BindingAt;
      var name :- EatNamed(Var);
      var binding :- ParseBinding();
      return Ok(VarS(name, binding.0, binding.1));
    }

    method ParseReturn() returns (r: Result<Stmt>)
      requires Valid()
      modifies this
      ensures Valid() && pos >= old(pos) && Found(r, pos, ReturnAt(toks, old(pos)))
      ensures r.Ok? ==> pos > old(pos)
      decreases |toks| - pos, 31
    {
      hide EatAt, ExprAt;
      var _ :- Eat(Return);
      if AtTok(RBrace) || AtTok(Semicolon) || AtTok(Eof) {
        return Ok(ReturnS(None));
      }
      var e :- ReadExpr();
      return Ok(ReturnS(Some(e)));
    }

    method ParseIf() returns (r: Result<Stmt>)
      requires Valid()
      modifies this
      ensures Valid() && pos >= old(pos) && Found(r, pos, IfAt(toks, old(pos)))
      ensures r.Ok? ==> pos > old(pos)
      decreases |toks| - pos, 31
    {
      hide EatAt, ExprAt, BlockAt;
      var _ :- Eat(If);
      var cond :- ReadExpr();
      var thn :- ParseBlock();
      var els: Option<seq<Stmt>> := None;
      var otherwise := Maybe(Else);
      if otherwise.Some? {
        if AtTok(If) {
          var nested :- ParseIf();
          els := Some([nested]);
        } else {
          var body :- ParseBlock();
          els := Some(body);
        }
      }
      return Ok(IfS(cond, thn, els));
    }

    method ParseFor() returns (r: Result<Stmt>)
      requires Valid()
      modifies this
      ensures Valid() && pos >= old(pos) && Found(r, pos, ForAt(toks, old(pos)))
      ensures r.Ok? ==> pos > old(pos)
      decreases |toks| - pos, 31
    {
      hide EatAt, NameAfter, ExprAt, BlockAt;
      var variable :- EatNamed(For);
      var _ :- Eat(In);
      var iter :- ReadExpr();
      var body :- ParseBlock();
      return Ok(ForS(variable, iter, body));
    }

    /** `name.name...`, the name for a pattern. */
    method ParsePath() returns (r: Result<string>)
      requires Valid()
      modifies this
      ensures Valid() && pos >= old(pos) && Found(r, pos, PathAt(toks, old(pos)))
      ensures r.Ok? ==> pos > old(pos)
      decreases |toks| - pos, 0
    {
      hide EatAt, NameAfter, NamesAt, AfterNames, Dots;
      FirstName(toks, pos, Dot);
      var head :- Eat(Ident);
      var path := head.value;
      ghost var names := [head.value];
      DotsOne(head.value);
      while AtTok(Dot)
        invariant Valid() && pos > old(pos) && names != [] && path == Dots(names)
        invariant AfterNames(toks, old(pos), Dot, names, pos)
        decreases |toks| - pos
      {
        NextName(toks, old(pos), Dot, names, pos);
        var part :- EatNamed(Dot);
        DotsMore(names, part);
        names := names + [part];
        path := path + "." + part;
      }
      NamesEnd(toks, old(pos), Dot, names, pos);
      return Ok(path);
    }

    method ParseNames() returns (r: Result<seq<string>>)
      requires Valid()
      modifies this
      ensures Valid() && pos >= old(pos) && Found(r, pos, NamesAt(toks, old(pos), Comma))
      ensures r.Ok? ==> pos > old(pos)
      decreases |toks| - pos, 0
    {
      hide EatAt, NameAfter, NamesAt, AfterNames;
      FirstName(toks, pos, Comma);
      var head :- Eat(Ident);
      var names := [head.value];
      while AtTok(Comma)
        invariant Valid() && pos > old(pos) && AfterNames(toks, old(pos), Comma, names, pos)
        decreases |toks| - pos
      {
        NextName(toks, old(pos), Comma, names, pos);
        var next :- EatNamed(Comma);
        names := names + [next];
      }
      NamesEnd(toks, old(pos), Comma, names, pos);
      return Ok(names);
    }

    /** The names a pattern binds. */
    method ParseBound() returns (r: Result<seq<string>>)
      requires Valid()
      modifies this
      ensures Valid() && pos >= old(pos) && Found(r, pos, BoundAt(toks, old(pos)))
      decreases |toks| - pos, 1
    {
      hide EatAt, NamesAt;
      if !AtTok(LParen) {
        return Ok([]);
      }
      var _ := Bump();
      var names: seq<string> := [];
      if !AtTok(RParen) { names :- ParseNames(); }
      var _ :- Eat(RParen);
      return Ok(names);
    }

    /** `name.name...(binding, ...)`, `*` or nothing in front of an arrow. */
    method ParsePattern() returns (r: Result<(string, seq<string>)>)
      requires Valid()
      modifies this
      ensures Valid() && pos >= old(pos) && Found(r, pos, PatternAt(toks, old(pos)))
      decreases |toks| - pos, 2
    {
      hide PathAt, BoundAt;
      if AtTok(Ident) {
        var pattern :- ParsePath();
        var bindings :- ParseBound();
        return Ok((pattern, bindings));
      }
      var pattern := "";
      if AtTok(Star) {
        var _ := Bump();
        pattern := "_";
      }
      return Ok((pattern, []));
    }

    method ParseCase() returns (r: Result<MatchCase>)
      requires Valid()
      modifies this
      ensures Valid() && pos >= old(pos) && Found(r, pos, CaseAt(toks, old(pos)))
      ensures r.Ok? ==> pos > old(pos)
      decreases |toks| - pos, 35
    {
      hide EatAt, PatternAt, BlockAt, StmtAt;
      var head :- ParsePattern();
      var _ :- Eat(FatArrow);
      if AtTok(LBrace) {
        var body :- ParseBlock();
        return Ok(MatchCase(head.0, head.1, body));
      }
      var single :- ParseStmt();
      return Ok(MatchCase(head.0, head.1, [single]));
    }

    method ParseMatch() returns (r: Result<Stmt>)
      requires Valid()
      modifies this
      ensures Valid() && pos >= old(pos) && Found(r, pos, MatchAt(toks, old(pos)))
      ensures r.Ok? ==> pos > old(pos)
      decreases |toks| - pos, 31
    {
      hide EatAt, ExprAt, CasesAt;
      var _ :- Eat(Match);
      var expr :- ReadExpr();
      var _ :- Eat(LBrace);
      var cases :- ParseCases();
      return Ok(MatchS(expr, cases));
    }

    /** Cases up to a closing brace, which is eaten too. */
    method ParseCases() returns (r: Result<seq<MatchCase>>)
      requires Valid()
      modifies this
      ensures Valid() && pos >= old(pos) && Found(r, pos, CasesAt(toks, old(pos)))
      decreases |toks| - pos, 36
    {
      hide CaseAt;
      var cases: seq<MatchCase> := [];
      AheadNone(cases, CasesAt(toks, pos));
      while !AtTok(RBrace)
        invariant Valid() && pos >= old(pos)
        invariant CasesAt(toks, old(pos)) == Ahead(cases, CasesAt(toks, pos))
        decreases |toks| - pos
      {
        var c :- ParseCase();
        AheadStep(cases, c, CasesAt(toks, pos));
        cases := cases + [c];
      }
      AheadNone(cases, CasesAt(toks, pos));
      var _ := Bump();
      return Ok(cases);
    }

    method ParsePrint() returns (r: Result<Stmt>)
      requires Valid()
      modifies this
      ensures Valid() && pos >= old(pos) && Found(r, pos, PrintAt(toks, old(pos)))
      ensures r.Ok? ==> pos > old(pos)
      decreases |toks| - pos, 31
    {
      hide EatAt, ArgsAt;
      var _ :- Eat(Print);
      var _ :- Eat(LParen);
      var args :- ReadArgs();
      return Ok(PrintS(args));
    }

    method ParseUnsafe() returns (r: Result<Stmt>)
      requires Valid()
      modifies this
      ensures Valid() && pos >= old(pos) && Found(r, pos, UnsafeAt(toks, old(pos)))
      ensures r.Ok? ==> pos > old(pos)
      decreases |toks| - pos, 31
    {
      hide EatAt, BlockAt;
      var _ :- Eat(Unsafe);
      var body :- ParseBlock();
      return Ok(UnsafeS(body));
    }

    // -------------------------------------------------------- declarations

    method ParseImport() returns (r: Result<Decl>)
      requires Valid()
      modifies this
      ensures Valid() && pos >= old(pos) && Found(r, pos, ImportAt(toks, old(pos)))
      ensures r.Ok? ==> pos > old(pos)
      decreases |toks| - pos
    {
      hide NameAfter;
      var name :- EatNamed(Import);
      return Ok(ImportD(name));
    }

    method ParseExtern() returns (r: Result<Decl>)
      requires Valid()
      modifies this
      ensures Valid() && pos >= old(pos) && Found(r, pos, ExternAt(toks, old(pos)))
      ensures r.Ok? ==> pos > old(pos)
      decreases |toks| - pos, 39
    {
      hide EatAt, BracedExternsAt;
      var _ :- Eat(Extern);
      var abi := "Rust";
      if AtTok(StringLiteral) {
        var name := Bump();
        abi := name.value;
      }
      var fns :- ParseBracedExterns();
      return Ok(ExternD(abi, fns));
    }

    method ParseBracedExterns() returns (r: Result<seq<ExternFn>>)
      requires Valid()
      modifies this
      ensures Valid() && pos >= old(pos) && Found(r, pos, BracedExternsAt(toks, old(pos)))
      decreases |toks| - pos, 38
    {
      hide EatAt, ExternFnsAt;
      var _ :- Eat(LBrace);
      r := ParseExternFns();
    }

    /** Signatures up to a closing brace, which is eaten too. */
    method ParseExternFns() returns (r: Result<seq<ExternFn>>)
      requires Valid()
      modifies this
      ensures Valid() && pos >= old(pos) && Found(r, pos, ExternFnsAt(toks, old(pos)))
      decreases |toks| - pos, 37
    {
      hide NameAfter, SignatureAt;
      var fns: seq<ExternFn> := [];
      AheadNone(fns, ExternFnsAt(toks, pos));
      while !AtTok(RBrace)
        invariant Valid() && pos >= old(pos)
        invariant ExternFnsAt(toks, old(pos)) == Ahead(fns, ExternFnsAt(toks, pos))
        decreases |toks| - pos
      {
        var name :- EatNamed(Fn);
        var sig :- ParseSignature();
        var fn := ExternFn(name, sig.0, sig.1);
        AheadStep(fns, fn, ExternFnsAt(toks, pos));
        fns := fns + [fn];
      }
      AheadNone(fns, ExternFnsAt(toks, pos));
      var _ := Bump();
      return Ok(fns);
    }

    method ParseInterruptAsStmt() returns (r: Result<Stmt>)
      requires Valid()
      modifies this
      ensures Valid() && pos >= old(pos) && Found(r, pos, InterruptAt(toks, old(pos)))
      ensures r.Ok? ==> pos > old(pos)
      decreases |toks| - pos, 36
    {
      hide EatAt, NameAfter, BlockAt;
      var _ :- EatNamed(Interrupt);
      var _ :- Eat(LParen);
      var _ :- Eat(RParen);
      var body :- ParseBlock();
      return Ok(UnsafeS(body));
    }

    /** `=> e`, `= e` or a block. */
    method ParseFnBody() returns (r: Result<(Option<seq<Stmt>>, Option<Expr>)>)
      requires Valid()
      modifies this
      ensures Valid() && pos >= old(pos) && Found(r, pos, FnBodyAt(toks, old(pos)))
      decreases |toks| - pos, 36
    {
      hide ExprAt, BlockAt;
      if AtTok(FatArrow) || AtTok(Assign) {
        var _ := Bump();
        var e :- ReadExpr();
        var _ := Maybe(Semicolon);
        return Ok((None, Some(e)));
      } else if AtTok(LBrace) {
        var b :- ParseBlock();
        return Ok((Some(b), None));
      } else {
        return Err(Unexpected(FunctionBody, CurTok()));
      }
    }

    method ParseFnHead() returns (r: Result<(Option<string>, string)>)
      requires Valid()
      modifies this
      ensures Valid() && pos >= old(pos) && Found(r, pos, FnHeadAt(toks, old(pos)))
      ensures r.Ok? ==> pos > old(pos)
      decreases |toks| - pos
    {
      hide EatAt;
      var _ :- Eat(Fn);
      var receiver: Option<string> := None;
      if CurTok().Is(Ident) && Peek(1).Is(Dot) {
        var recv := Bump();
        receiver := Some(recv.value);
        var _ := Bump();
      }
      var name :- Eat(Ident);
      return Ok((receiver, name.value));
    }

    method ParseFn(isAsync: bool, isUnsafe: bool) returns (r: Result<FnDecl>)
      requires Valid()
      modifies this
      ensures Valid() && pos >= old(pos) && Found(r, pos, FnAt(toks, old(pos), isAsync, isUnsafe))
      ensures r.Ok? ==> pos > old(pos)
      decreases |toks| - pos, 37
    {
      hide EatAt, FnHeadAt, SignatureAt, FnBodyAt;
      if isAsync {
        var _ :- Eat(Async);
      }
      var head :- ParseFnHead();
      var sig :- ParseSignature();
      var body :- ParseFnBody();
      return Ok(FnDecl(head.1, sig.0, sig.1, body.0, body.1, isAsync, isUnsafe, head.0));
    }

    method SkipOptionalParens()
      requires Valid()
      modifies this
      ensures Valid() && pos == SkipParens(toks, old(pos))
    {
      hide EatAt;
      if AtTok(LParen) {
        var _ := Bump();
        while !AtTok(RParen) && !AtTok(Eof)
          invariant Valid() && pos > old(pos) && CloseFrom(toks, old(pos) + 1) == CloseFrom(toks, pos)
          decreases |toks| - pos
        {
          pos := pos + 1;
        }
        var _ := Eat(RParen);
      }
    }

    method ParseBases() returns (r: Result<seq<string>>)
      requires Valid()
      modifies this
      ensures Valid() && pos >= old(pos) && Found(r, pos, BasesAt(toks, old(pos)))
      ensures r.Ok? ==> pos > old(pos)
      decreases |toks| - pos
    {
      hide EatAt, NameAfter, BasesAt, AfterBases, SkipParens;
      FirstBase(toks, pos);
      var first :- Eat(Ident);
      SkipOptionalParens();
      var bases := [first.value];
      while AtTok(Comma)
        invariant Valid() && pos > old(pos) && AfterBases(toks, old(pos), bases, pos)
        decreases |toks| - pos
      {
        NextBase(toks, old(pos), bases, pos);
        var base :- EatNamed(Comma);
        SkipOptionalParens();
        bases := bases + [base];
      }
      BasesEnd(toks, old(pos), bases, pos);
      return Ok(bases);
    }

    method ParseClassParams() returns (r: Result<seq<Param>>)
      requires Valid()
      modifies this
      ensures Valid() && pos >= old(pos) && Found(r, pos, ClassParamsAt(toks, old(pos)))
      decreases |toks| - pos, 36
    {
      hide EatAt, ParamsAt;
      var paren := Maybe(LParen);
      if paren.None? {
        return Ok([]);
      }
      var params :- ParseParams();
      var _ :- Eat(RParen);
      return Ok(params);
    }

    method ParseClassBases() returns (r: Result<seq<string>>)
      requires Valid()
      modifies this
      ensures Valid() && pos >= old(pos) && Found(r, pos, ClassBasesAt(toks, old(pos)))
      decreases |toks| - pos, 1
    {
      hide BasesAt;
      var colon := Maybe(Colon);
      if colon.None? {
        return Ok([]);
      }
      r := ParseBases();
    }

    method ParseClassFns() returns (r: Result<seq<FnDecl>>)
      requires Valid()
      modifies this
      ensures Valid() && pos >= old(pos) && Found(r, pos, ClassFnsAt(toks, old(pos)))
      decreases |toks| - pos, 39
    {
      hide ClassMembersAt;
      var brace := Maybe(LBrace);
      if brace.None? {
        return Ok([]);
      }
      r := ParseClassMembers();
    }

    method ParseClassMembers() returns (r: Result<seq<FnDecl>>)
      requires Valid()
      modifies this
      ensures Valid() && pos >= old(pos) && Found(r, pos, ClassMembersAt(toks, old(pos)))
      decreases |toks| - pos, 38
    {
      hide FnAt;
      var members: seq<FnDecl> := [];
      AheadNone(members, ClassMembersAt(toks, pos));
      while !AtTok(RBrace)
        invariant Valid() && pos >= old(pos)
        invariant ClassMembersAt(toks, old(pos)) == Ahead(members, ClassMembersAt(toks, pos))
        decreases |toks| - pos
      {
        if !AtTok(Fn) {
          return Err(Unexpected(FnInClass, CurTok()));
        }
        var member :- ParseFn(false, false);
        AheadStep(members, member, ClassMembersAt(toks, pos));
        members := members + [member];
      }
      AheadNone(members, ClassMembersAt(toks, pos));
      var _ := Bump();
      return Ok(members);
    }

    method ParseSubclasses() returns (r: Result<seq<ClassDecl>>)
      requires Valid()
      modifies this
      ensures Valid() && pos >= old(pos) && Found(r, pos, SubclassesAt(toks, old(pos)))
      decreases |toks| - pos, 0
    {
      hide EatAt, ClassAt;
      var subclasses: seq<ClassDecl> := [];
      AheadNone(subclasses, SubclassesAt(toks, pos));
      while !AtTok(RBrace)
        invariant Valid() && pos >= old(pos)
        invariant SubclassesAt(toks, old(pos)) == Ahead(subclasses, SubclassesAt(toks, pos))
        decreases |toks| - pos
      {
        var _ :- Eat(Class);
        var sub :- ParseClass(false, false);
        AheadStep(subclasses, sub, SubclassesAt(toks, pos));
        subclasses := subclasses + [sub];
      }
      AheadNone(subclasses, SubclassesAt(toks, pos));
      var _ := Bump();
      return Ok(subclasses);
    }

    method ParseClass(isData: bool, isSealed: bool) returns (r: Result<ClassDecl>)
      requires Valid()
      modifies this
      ensures Valid() && pos >= old(pos) && Found(r, pos, ClassAt(toks, old(pos), isData, isSealed))
      ensures r.Ok? ==> pos > old(pos)
      decreases |toks| - pos, 41
    {
      hide EatAt, ClassParamsAt, ClassBasesAt, ClassBodyAt;
      var name :- Eat(Ident);
      var params :- ParseClassParams();
      var bases :- ParseClassBases();
      var body :- ParseClassBody(isSealed);
      return Ok(ClassDecl(name.value, isData, isSealed, params, bases, body.0, body.1));
    }

    /** Functions, or the classes of a sealed one. */
    method ParseClassBody(isSealed: bool) returns (r: Result<(seq<FnDecl>, seq<ClassDecl>)>)
      requires Valid()
      modifies this
      ensures Valid() && pos >= old(pos) && Found(r, pos, ClassBodyAt(toks, old(pos), isSealed))
      decreases |toks| - pos, 40
    {
      hide SubclassesAt, ClassFnsAt;
      if isSealed && AtTok(LBrace) && Peek(1).Is(Class) {
        var _ := Bump();
        var subclasses :- ParseSubclasses();
        return Ok(([], subclasses));
      }
      var members :- ParseClassFns();
      return Ok((members, []));
    }

    /** Methods up to a closing brace, which is eaten too. */
    method ParseMembers() returns (r: Result<seq<FnDecl>>)
      requires Valid()
      modifies this
      ensures Valid() && pos >= old(pos) && Found(r, pos, MembersAt(toks, old(pos)))
      decreases |toks| - pos, 38
    {
      hide FnAt;
      var members: seq<FnDecl> := [];
      AheadNone(members, MembersAt(toks, pos));
      while !AtTok(RBrace)
        invariant Valid() && pos >= old(pos)
        invariant MembersAt(toks, old(pos)) == Ahead(members, MembersAt(toks, pos))
        decreases |toks| - pos
      {
        var member :- ParseFn(false, false);
        AheadStep(members, member, MembersAt(toks, pos));
        members := members + [member];
      }
      AheadNone(members, MembersAt(toks, pos));
      var _ := Bump();
      return Ok(members);
    }

    method ParseBracedMembers() returns (r: Result<seq<FnDecl>>)
      requires Valid()
      modifies this
      ensures Valid() && pos >= old(pos) && Found(r, pos, BracedMembersAt(toks, old(pos)))
      decreases |toks| - pos, 39
    {
      hide EatAt, MembersAt;
      var _ :- Eat(LBrace);
      r := ParseMembers();
    }

    method ParseInterface() returns (r: Result<Decl>)
      requires Valid()
      modifies this
      ensures Valid() && pos >= old(pos) && Found(r, pos, InterfaceAt(toks, old(pos)))
      ensures r.Ok? ==> pos > old(pos)
      decreases |toks| - pos, 40
    {
      hide NameAfter, BracedMembersAt;
      var name :- EatNamed(Interface);
      var methods :- ParseBracedMembers();
      return Ok(InterfaceD(name, methods));
    }

    method ParseObject() returns (r: Result<Decl>)
      requires Valid()
      modifies this
      ensures Valid() && pos >= old(pos) && Found(r, pos, ObjectAt(toks, old(pos)))
      ensures r.Ok? ==> pos > old(pos)
      decreases |toks| - pos, 40
    {
      hide NameAfter, BracedMembersAt;
      var name :- EatNamed(Object);
      var members :- ParseBracedMembers();
      return Ok(ObjectD(name, members));
    }

    method ParseDriver() returns (r: Result<Decl>)
      requires Valid()
      modifies this
      ensures Valid() && pos >= old(pos) && Found(r, pos, DriverAt(toks, old(pos)))
      ensures r.Ok? ==> pos > old(pos)
      decreases |toks| - pos, 40
    {
      hide NameAfter, BracedMembersAt;
      var name :- EatNamed(Driver);
      var implements :- EatNamed(Colon);
      var members :- ParseBracedMembers();
      return Ok(DriverD(name, implements, members));
    }

    method ParseClassDecl() returns (r: Result<Decl>)
      requires Valid()
      modifies this
      ensures Valid() && pos >= old(pos) && Found(r, pos, ClassDeclAt(toks, old(pos)))
      ensures r.Ok? ==> pos > old(pos)
      decreases |toks| - pos, 42
    {
      hide EatAt, ClassAt;
      var isData, isSealed := AtTok(Data), AtTok(Sealed);
      if isData || isSealed {
        var _ := Bump();
      }
      var _ :- Eat(Class);
      var cls :- ParseClass(isData, isSealed);
      return Ok(ClassD(cls));
    }

    method ParseFnDecl() returns (r: Result<Decl>)
      requires Valid()
      modifies this
      ensures Valid() && pos >= old(pos) && Found(r, pos, FnDeclAt(toks, old(pos)))
      ensures r.Ok? ==> pos > old(pos)
      decreases |toks| - pos, 42
    {
      hide FnAt;
      var isUnsafe := AtTok(Unsafe);
      if isUnsafe {
        var _ := Bump();
      }
      var fn :- ParseFn(false, isUnsafe);
      return Ok(FnD(fn));
    }

    method ParseStmtDecl() returns (r: Result<Decl>)
      requires Valid()
      modifies this
      ensures Valid() && pos >= old(pos) && Found(r, pos, StmtDeclAt(toks, old(pos)))
      ensures r.Ok? ==> pos > old(pos)
      decreases |toks| - pos, 42
    {
      hide InterruptAt, StmtAt;
      if AtTok(Interrupt) {
        var handler :- ParseInterruptAsStmt();
        return Ok(StmtD(handler));
      }
      var stmt :- ParseStmt();
      return Ok(StmtD(stmt));
    }

    method ParseDecl() returns (r: Result<Decl>)
      requires Valid()
      modifies this
      ensures Valid() && pos >= old(pos) && Found(r, pos, DeclAt(toks, old(pos)))
      ensures r.Ok? ==> pos > old(pos)
      decreases |toks| - pos, 43
    {
      hide ImportAt, ExternAt, FnDeclAt, ClassDeclAt, InterfaceAt, ObjectAt, DriverAt, StmtDeclAt;
      if AtTok(Import) {
        r := ParseImport();
      } else if AtTok(Extern) {
        r := ParseExtern();
      } else if AtTok(Async) || AtTok(Fn) || (AtTok(Unsafe) && Peek(1).Is(Fn)) {
        r := ParseFnDecl();
      } else if AtTok(Data) || AtTok(Sealed) || AtTok(Class) {
        r := ParseClassDecl();
      } else if AtTok(Interface) {
        r := ParseInterface();
      } else if AtTok(Object) {
        r := ParseObject();
      } else if AtTok(Driver) {
        r := ParseDriver();
      } else {
        r := ParseStmtDecl();
      }
    }

    method ParseProgram() returns (r: Result<AgexAst.Program>)
      requires Valid()
      modifies this
      ensures Valid()
      ensures match DeclsAt(toks, old(pos))
        case Got(ds, j) => r == Ok(AgexAst.Program(ds)) && pos == j && AtTok(Eof)
        case Lost(e) => r == Err(e)
    {
      hide DeclAt;
      var decls: seq<Decl> := [];
      AheadNone(decls, DeclsAt(toks, pos));
      while !AtTok(Eof)
        invariant Valid() && DeclsAt(toks, old(pos)) == Ahead(decls, DeclsAt(toks, pos))
        decreases |toks| - pos
      {
        var decl :- ParseDecl();
        AheadStep(decls, decl, DeclsAt(toks, pos));
        decls := decls + [decl];
      }
      AheadNone(decls, DeclsAt(toks, pos));
      return Ok(AgexAst.Program(decls));
    }
  }
}
