/** The expression printer of the code generator, with no method fields and no
    sealed classes in scope, and the tree that its text stands for. */
module AgexPrinter {
  import opened AgexAst
  import opened AgexExprParser
  import opened AgexLexer
  import opened Wrappers

  function Join(parts: seq<string>, sep: string): string {
    if |parts| == 0 then ""
    else if |parts| == 1 then parts[0]
    else Join(parts[..|parts| - 1], sep) + sep + parts[|parts| - 1]
  }

  /** Method names the printer maps to names of the target language. */
  predicate Rewritten(name: string) {
    name == "uppercase" || name == "lowercase" || name == "length" || name == "len"
  }

  function MethodName(name: string): string {
    if name == "uppercase" then "to_uppercase"
    else if name == "lowercase" then "to_lowercase"
    else if name == "length" then "len"
    else name
  }

  predicate IsLength(name: string) {
    name == "length" || name == "len"
  }

  function GenExpr(e: Expr): string
    decreases e, 1
  {
    match e
    case IntE(text) => text
    case FloatE(text) => text
    case StringE(text) => "\"" + text + "\""
    case BoolE(b) => if b then "true" else "false"
    case NullE => "None"
    case ThisE => "self"
    case IdentE(name) => name
    case BinaryE(op, left, right) =>
      if op == "+" && (left.StringE? || right.StringE?) then
        "format!(\"{}{}\", " + GenExpr(left) + ", " + GenExpr(right) + ")"
      else "(" + GenExpr(left) + " " + op + " " + GenExpr(right) + ")"
    case UnaryE(op, operand) =>
      if op == "&" then "&" + GenExpr(operand) else "(" + op + GenExpr(operand) + ")"
    case CallE(callee, args) =>
      if callee.IdentE? && callee.name == "range" then
        "(0.." + (if args == [] then "0" else GenExpr(args[0])) + ")"
      else if callee.IdentE? && callee.name == "println" then
        if args == [] then "println!()"
        else
          var fmt, rest := Join(Formats(args), " "), GenRest(args);
          if rest == [] then "println!(\"" + fmt + "\")"
          else "println!(\"" + fmt + "\", " + Join(rest, ", ") + ")"
      else GenExpr(callee) + "(" + GenArgs(args) + ")"
    case MethodE(recv, name, args) =>
      if Rewritten(name) then GenExpr(recv) + "." + MethodName(name) + "()"
      else GenExpr(recv) + "." + name + "(" + GenArgs(args) + ")"
    case FieldE(recv, name) =>
      if IsLength(name) then GenExpr(recv) + ".len()" else GenExpr(recv) + "." + name
    case SafeCallE(recv, name, args) =>
      GenExpr(recv) + ".as_ref().and_then(|r| Some(r." + name + "(" + GenArgs(args) + ")))"
    case ElvisE(left, right) => GenExpr(left) + ".unwrap_or(" + GenExpr(right) + ")"
    case NewE(name, args) => name + "::new(" + Join(GenOwned(args), ", ") + ")"
    case CastE(expr, name) => GenExpr(expr) + " as " + name
  }

  /** The arguments joined by commas. */
  function GenArgs(args: seq<Expr>): string
    decreases args, 0
  {
    if |args| == 0 then ""
    else if |args| == 1 then GenExpr(args[0])
    else GenArgs(args[..|args| - 1]) + ", " + GenExpr(args[|args| - 1])
  }

  function Formats(args: seq<Expr>): seq<string> {
    seq(|args|, i requires 0 <= i < |args| => if args[i].StringE? then args[i].text else "{}")
  }

  function GenRest(args: seq<Expr>): seq<string>
    decreases args, 0
  {
    if args == [] then []
    else (if args[0].StringE? then [] else [GenExpr(args[0])]) + GenRest(args[1..])
  }

  function GenOwned(args: seq<Expr>): seq<string>
    decreases args, 0
  {
    if args == [] then []
    else [GenExpr(args[0]) + if args[0].StringE? then ".to_string()" else ""] + GenOwned(args[1..])
  }

  // --------------------------------------------------------- the fragment

  /** A word the lexer reads as one identifier token. */
  predicate Plain(name: string) {
    name != [] && IsIdentStart(name[0]) && Span(IdentPart, name) == |name| && Lookup(name) == Ident
  }

  predicate NumberText(text: string) {
    text != [] && IsDigit(text[0]) && NumberLen(text) == |text|
  }

  /** Token type of a binary operator, by its spelling. */
  function BinType(op: string): Option<TokenType> {
    if |op| == 1 then
      (match op[0]
       case '<' => Some(LT)
       case '>' => Some(GT)
       case '+' => Some(Plus)
       case '-' => Some(Minus)
       case '*' => Some(Star)
       case '/' => Some(Slash)
       case '%' => Some(Percent)
       case _ => None)
    else if |op| == 2 then
      (match (op[0], op[1])
       case ('|', '|') => Some(Or)
       case ('&', '&') => Some(And)
       case ('=', '=') => Some(Eq)
       case ('!', '=') => Some(Neq)
       case ('<', '=') => Some(LE)
       case ('>', '=') => Some(GE)
       case _ => None)
    else None
  }

  function PrefixType(op: string): Option<TokenType> {
    if |op| == 1 && op[0] == '-' then Some(Minus)
    else if |op| == 1 && op[0] == '!' then Some(Not)
    else None
  }

  /** Trees over numbers, booleans, identifiers, operators, calls, methods, fields,
      `null`, `this` and elvis, with names the lexer reads as identifiers. */
  predicate Base(e: Expr)
    decreases e, 1
  {
    match e
    case IntE(text) => NumberText(text) && !HasFraction(text)
    case FloatE(text) => NumberText(text) && HasFraction(text)
    case BoolE(_) => true
    case NullE => true
    case ThisE => true
    case IdentE(name) => Plain(name)
    case BinaryE(op, left, right) => BinType(op).Some? && Base(left) && Base(right)
    case UnaryE(op, operand) => PrefixType(op).Some? && Base(operand)
    case CallE(callee, args) => Base(callee) && BaseAll(args) && callee != IdentE("println")
    case MethodE(recv, name, args) => Plain(name) && Base(recv) && BaseAll(args)
    case FieldE(recv, name) => Plain(name) && Base(recv)
    case ElvisE(left, right) => Base(left) && Base(right)
    case _ => false
  }

  predicate BaseAll(args: seq<Expr>)
    decreases args, 0
  {
    |args| == 0 || (BaseAll(args[..|args| - 1]) && Base(args[|args| - 1]))
  }

  // ------------------------------------------------ what the text stands for

  /** The tree that the parser reads back from the printed text. */
  function Norm(e: Expr): Expr
    decreases e, 1
  {
    match e
    case NullE => IdentE("None")
    case ThisE => IdentE("self")
    case IdentE(name) => WordExpr(name)
    case BinaryE(op, left, right) => BinaryE(op, Norm(left), Norm(right))
    case UnaryE(op, operand) => UnaryE(op, Norm(operand))
    case CallE(callee, args) =>
      if callee.IdentE? && Grabs(Token(Ident, callee.name)) then NewE(callee.name, NormAll(args))
      else if callee.NullE? then NewE("None", NormAll(args))
      else if callee.FieldE? && !IsLength(callee.name) then MethodE(Norm(callee.recv), callee.name, NormAll(args))
      else CallE(Norm(callee), NormAll(args))
    case MethodE(recv, name, args) =>
      MethodE(Norm(recv), MethodName(name), if Rewritten(name) then [] else NormAll(args))
    case FieldE(recv, name) =>
      if IsLength(name) then MethodE(Norm(recv), "len", []) else FieldE(Norm(recv), name)
    case ElvisE(left, right) => MethodE(Norm(left), "unwrap_or", [Norm(right)])
    case _ => e
  }

  function NormAll(args: seq<Expr>): (r: seq<Expr>)
    ensures |r| == |args|
    decreases args, 0
  {
    if |args| == 0 then [] else NormAll(args[..|args| - 1]) + [Norm(args[|args| - 1])]
  }

  /** The trees that the printer does not change: no `null`, `this`, elvis or
      reserved word, no call of a bare capitalised word or of a field, and none of
      the renamed members except the method `len` without arguments. */
  predicate Faithful(e: Expr)
    decreases e, 1
  {
    match e
    case NullE => false
    case ThisE => false
    case ElvisE(_, _) => false
    case IdentE(name) => !Reserved(name)
    case BinaryE(_, left, right) => Faithful(left) && Faithful(right)
    case UnaryE(_, operand) => Faithful(operand)
    case CallE(callee, args) =>
      && !(callee.IdentE? && Capitalized(callee.name)) && !callee.FieldE?
      && Faithful(callee) && FaithfulAll(args)
    case MethodE(recv, name, args) =>
      && (Rewritten(name) ==> name == "len" && args == [])
      && Faithful(recv) && FaithfulAll(args)
    case FieldE(recv, name) => !IsLength(name) && Faithful(recv)
    case _ => true
  }

  predicate FaithfulAll(args: seq<Expr>)
    decreases args, 0
  {
    |args| == 0 || (FaithfulAll(args[..|args| - 1]) && Faithful(args[|args| - 1]))
  }

  /** The printed text stands for the tree itself exactly for the faithful trees. */
  lemma {:induction false} NormFixed(e: Expr)
    requires Base(e)
    ensures Norm(e) == e <==> Faithful(e)
    decreases e, 1
  {
    match e
    case IdentE(name) =>
    case BinaryE(_, left, right) =>
      NormFixed(left);
      NormFixed(right);
    case UnaryE(_, operand) => NormFixed(operand);
    case CallE(callee, args) =>
      NormFixed(callee);
      NormAllFixed(args);
    case MethodE(recv, name, args) =>
      NormFixed(recv);
      NormAllFixed(args);
      NameFixed(name);
    case FieldE(recv, _) => NormFixed(recv);
    case _ =>
  }

  lemma NameFixed(name: string)
    ensures MethodName(name) == name <==> (Rewritten(name) ==> name == "len")
  {
  }

  lemma {:induction false} NormAllFixed(args: seq<Expr>)
    requires BaseAll(args)
    ensures NormAll(args) == args <==> FaithfulAll(args)
    decreases args, 0
  {
    if |args| > 0 {
      var n := |args| - 1;
      NormAllFixed(args[..n]);
      NormFixed(args[n]);
      assert args == args[..n] + [args[n]];
      assert NormAll(args)[..n] == NormAll(args[..n]) && NormAll(args)[n] == Norm(args[n]);
    }
  }

  // ------------------------------------------------------------- its tokens

  function WordToken(name: string): Token {
    Token(Ident, name)
  }

  const LP: Token := Token(LParen, "(")
  const RP: Token := Token(RParen, ")")
  const DOT: Token := Token(Dot, ".")
  const COMMA: Token := Token(Comma, ",")

  function Toks(e: Expr): seq<Token>
    requires Base(e)
    decreases e, 1
  {
    match e
    case IntE(text) => [Token(IntLiteral, text)]
    case FloatE(text) => [Token(FloatLiteral, text)]
    case BoolE(b) => [WordToken(if b then "true" else "false")]
    case NullE => [WordToken("None")]
    case ThisE => [WordToken("self")]
    case IdentE(name) => [WordToken(name)]
    case BinaryE(op, left, right) => [LP] + Toks(left) + [Token(BinType(op).value, op)] + Toks(right) + [RP]
    case UnaryE(op, operand) => [LP, Token(PrefixType(op).value, op)] + Toks(operand) + [RP]
    case CallE(callee, args) => Toks(callee) + [LP] + ArgToks(args) + [RP]
    case MethodE(recv, name, args) =>
      Toks(recv) + [DOT, WordToken(MethodName(name)), LP] + (if Rewritten(name) then [] else ArgToks(args)) + [RP]
    case FieldE(recv, name) =>
      if IsLength(name) then Toks(recv) + [DOT, WordToken("len"), LP] + [RP] else Toks(recv) + [DOT, WordToken(name)]
    case ElvisE(left, right) => Toks(left) + [DOT, WordToken("unwrap_or"), LP] + Toks(right) + [RP]
  }

  function ArgToks(args: seq<Expr>): seq<Token>
    requires BaseAll(args)
    decreases args, 0
  {
    if |args| == 0 then []
    else if |args| == 1 then Toks(args[0])
    else ArgToks(args[..|args| - 1]) + [COMMA] + Toks(args[|args| - 1])
  }
}
