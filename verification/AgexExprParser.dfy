/** What the expression parser computes, as functions from the remaining tokens to
    a tree and the tokens left over.  The cursor methods in AgexParser.dfy are
    proved to compute these functions. */
module AgexExprParser {
  import opened AgexAst

  datatype Expectation = Expected(ty: TokenType) | InExpression | FunctionBody | FnInClass

  datatype ParseError = Unexpected(msg: Expectation, got: Token)

  datatype Parse<+T> = Parsed(value: T, rest: seq<Token>) | Stuck(error: ParseError)

  const EOF_TOKEN: Token := Token(Eof, "")

  function Cur(ts: seq<Token>): Token {
    if ts == [] then EOF_TOKEN else ts[0]
  }

  predicate At(ts: seq<Token>, ty: TokenType) {
    ts != [] && ts[0].Is(ty)
  }

  /** The token after the current one has type `ty`. */
  predicate NextIs(ts: seq<Token>, ty: TokenType) {
    |ts| > 1 && ts[1].Is(ty)
  }

  function Eat(ts: seq<Token>, ty: TokenType): (r: Parse<Token>)
    ensures r.Parsed? <==> At(ts, ty)
    ensures r.Parsed? ==> r.value == ts[0] && r.rest == ts[1..]
  {
    if At(ts, ty) then Parsed(ts[0], ts[1..]) else Stuck(Unexpected(Expected(ty), Cur(ts)))
  }

  // Precedence levels, loosest first.
  const ELVIS: nat := 0
  const OR: nat := 1
  const AND: nat := 2
  const EQ: nat := 3
  const CMP: nat := 4
  const IS: nat := 5
  const ADD: nat := 6
  const MUL: nat := 7
  const UNARY: nat := 8
  const POSTFIX: nat := 9
  const PRIMARY: nat := 10

  /** The operator tokens of the six binary levels. */
  predicate BinaryOp(k: nat, ty: TokenType) {
    || (k == OR && ty.Or?)
    || (k == AND && ty.And?)
    || (k == EQ && (ty.Eq? || ty.Neq?))
    || (k == CMP && (ty.LT? || ty.LE? || ty.GT? || ty.GE?))
    || (k == ADD && (ty.Plus? || ty.Minus?))
    || (k == MUL && (ty.Star? || ty.Slash? || ty.Percent?))
  }

  function OpText(k: nat, tok: Token): string {
    if k == OR then "||" else if k == AND then "&&" else tok.value
  }

  predicate UnaryOp(ty: TokenType) {
    (ty.Not? || ty.Minus? || ty.Amp?)
  }

  function UnaryText(tok: Token): string {
    if tok.Is(Amp) then "&" else tok.value
  }

  predicate Word(ty: TokenType) {
    (ty.Ident? || ty.Print? || ty.Range?)
  }

  predicate IsUpper(c: char) {
    'A' <= c <= 'Z'
  }

  predicate Reserved(v: string) {
    v == "true" || v == "false" || v == "null" || v == "this"
  }

  predicate Capitalized(v: string) {
    v != [] && IsUpper(v[0])
  }

  /** The tree of a word that is not followed by its own argument list. */
  function WordExpr(v: string): Expr {
    if v == "true" || v == "false" then BoolE(v == "true")
    else if v == "null" then NullE
    else if v == "this" then ThisE
    else IdentE(v)
  }

  /** Words that take a following `(` themselves: constructors and `print`. */
  predicate Grabs(t: Token) {
    Word(t.ty) && !Reserved(t.value) && (Capitalized(t.value) || t.Is(Print))
  }

  function GrabExpr(t: Token, args: seq<Expr>): Expr {
    if Capitalized(t.value) then NewE(t.value, args) else CallE(IdentE("println"), args)
  }

  /** `is_some` test at the head of a level's loop. */
  predicate Continues(k: nat, ts: seq<Token>) {
    if k == ELVIS then At(ts, Question) && NextIs(ts, Colon)
    else if k == IS then At(ts, Ident) && ts[0].value == "is"
    else if k == POSTFIX then At(ts, Dot) || (At(ts, Question) && NextIs(ts, Dot)) || At(ts, LParen)
    else ts != [] && BinaryOp(k, ts[0].ty)
  }

  function ParseLevel(k: nat, ts: seq<Token>): (r: Parse<Expr>)
    requires k <= PRIMARY
    ensures r.Parsed? ==> |r.rest| < |ts|
    decreases |ts|, 20 - k
  {
    if k < UNARY then
      match ParseLevel(k + 1, ts)
      case Parsed(left, rest) => Loop(k, left, rest)
      case Stuck(e) => Stuck(e)
    else if k == UNARY then
      if ts != [] && UnaryOp(ts[0].ty) then
        match ParseLevel(UNARY, ts[1..])
        case Parsed(x, rest) => Parsed(UnaryE(UnaryText(ts[0]), x), rest)
        case Stuck(e) => Stuck(e)
      else ParseLevel(POSTFIX, ts)
    else if k == POSTFIX then
      match ParseLevel(PRIMARY, ts)
      case Parsed(x, rest) => PostfixLoop(x, rest)
      case Stuck(e) => Stuck(e)
    else ParsePrimary(ts)
  }

  /** The `while` loop of a left-associative level. */
  function Loop(k: nat, left: Expr, ts: seq<Token>): (r: Parse<Expr>)
    requires k < UNARY
    ensures r.Parsed? ==> |r.rest| <= |ts|
    decreases |ts|, 0
  {
    if !Continues(k, ts) then Parsed(left, ts)
    else if k == ELVIS then
      match ParseLevel(OR, ts[2..])
      case Parsed(right, rest) => Loop(k, ElvisE(left, right), rest)
      case Stuck(e) => Stuck(e)
    else if k == IS then
      match Eat(ts[1..], Ident)
      case Parsed(t, rest) => Loop(k, CastE(left, t.value), rest)
      case Stuck(e) => Stuck(e)
    else
      match ParseLevel(k + 1, ts[1..])
      case Parsed(right, rest) => Loop(k, BinaryE(OpText(k, ts[0]), left, right), rest)
      case Stuck(e) => Stuck(e)
  }

  /** `x.name` or `x?.name` (n tokens of operator), without and with arguments. */
  function Member(x: Expr, name: string, n: nat): Expr {
    if n == 1 then FieldE(x, name) else SafeCallE(x, name, [])
  }

  function MemberCall(x: Expr, name: string, n: nat, args: seq<Expr>): Expr {
    if n == 1 then MethodE(x, name, args) else SafeCallE(x, name, args)
  }

  function PostfixLoop(x: Expr, ts: seq<Token>): (r: Parse<Expr>)
    ensures r.Parsed? ==> |r.rest| <= |ts|
    decreases |ts|, 1
  {
    if At(ts, Dot) then MemberLoop(x, ts, 1)
    else if At(ts, Question) && NextIs(ts, Dot) then MemberLoop(x, ts, 2)
    else if At(ts, LParen) then
      match ParseArgs(ts[1..])
      case Parsed(args, rest) => PostfixLoop(CallE(x, args), rest)
      case Stuck(e) => Stuck(e)
    else Parsed(x, ts)
  }

  function MemberLoop(x: Expr, ts: seq<Token>, n: nat): (r: Parse<Expr>)
    requires 1 <= n <= |ts|
    ensures r.Parsed? ==> |r.rest| <= |ts|
    decreases |ts|, 0
  {
    if |ts| == n || !ts[n].ty.Ident? then Stuck(Unexpected(Expected(Ident), Cur(ts[n..])))
    else if NextIs(ts[n..], LParen) then
      match ParseArgs(ts[n + 2..])
      case Parsed(args, rest) => PostfixLoop(MemberCall(x, ts[n].value, n, args), rest)
      case Stuck(e) => Stuck(e)
    else PostfixLoop(Member(x, ts[n].value, n), ts[n + 1..])
  }

  /** An argument list after its `(`, up to and including the `)`. */
  function ParseArgs(ts: seq<Token>): (r: Parse<seq<Expr>>)
    ensures r.Parsed? ==> |r.rest| < |ts|
    decreases |ts|, 30
  {
    if At(ts, RParen) then Parsed([], ts[1..])
    else
      match ParseLevel(ELVIS, ts)
      case Parsed(x, rest) => ArgsTail([x], rest)
      case Stuck(e) => Stuck(e)
  }

  function ArgsTail(args: seq<Expr>, ts: seq<Token>): (r: Parse<seq<Expr>>)
    ensures r.Parsed? ==> |r.rest| < |ts|
    decreases |ts|, 0
  {
    if At(ts, Comma) then
      match ParseLevel(ELVIS, ts[1..])
      case Parsed(x, rest) => ArgsTail(args + [x], rest)
      case Stuck(e) => Stuck(e)
    else
      match Eat(ts, RParen)
      case Parsed(_, rest) => Parsed(args, rest)
      case Stuck(e) => Stuck(e)
  }

  function ParsePrimary(ts: seq<Token>): (r: Parse<Expr>)
    ensures r.Parsed? ==> |r.rest| < |ts|
    decreases |ts|, 1
  {
    var tok := Cur(ts);
    if ts == [] then Stuck(Unexpected(InExpression, tok)) else
    match tok.ty
    case IntLiteral => Parsed(IntE(tok.value), ts[1..])
    case FloatLiteral => Parsed(FloatE(tok.value), ts[1..])
    case StringLiteral => Parsed(StringE(tok.value), ts[1..])
    case CharLiteral => Parsed(StringE(tok.value), ts[1..])
    case LParen =>
      (match ParseLevel(ELVIS, ts[1..])
       case Stuck(e) => Stuck(e)
       case Parsed(x, rest) =>
         match Eat(rest, RParen)
         case Parsed(_, rest') => Parsed(x, rest')
         case Stuck(e) => Stuck(e))
    case Ident => ParseWord(ts)
    case Print => ParseWord(ts)
    case Range => ParseWord(ts)
    case _ => Stuck(Unexpected(InExpression, tok))
  }

  function ParseWord(ts: seq<Token>): (r: Parse<Expr>)
    requires ts != [] && Word(ts[0].ty)
    ensures r.Parsed? ==> |r.rest| < |ts|
    decreases |ts|, 0
  {
    if Grabs(ts[0]) && NextIs(ts, LParen) then
      match ParseArgs(ts[2..])
      case Parsed(args, rest) => Parsed(GrabExpr(ts[0], args), rest)
      case Stuck(e) => Stuck(e)
    else Parsed(WordExpr(ts[0].value), ts[1..])
  }
}
