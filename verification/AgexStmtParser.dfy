/** What the parser of types, statements and declarations computes, as functions from
    the tokens and a position to a tree and the position behind it.  The cursor
    methods in AgexParser.dfy are proved to compute these functions. */
module AgexStmtParser {
  import opened AgexAst
  import opened AgexExprParser
  import opened Wrappers

  /** A tree and the position behind it. */
  datatype Read<+T> = Got(value: T, next: nat) | Lost(error: ParseError) {
    predicate IsFailure() { Lost? }
    function PropagateFailure<U>(): Read<U> requires Lost? { Lost(error) }
    function Extract(): (T, nat) requires Got? { (value, next) }
  }

  function TokenAt(ts: seq<Token>, i: nat): Token {
    if i < |ts| then ts[i] else EOF_TOKEN
  }

  function EatAt(ts: seq<Token>, i: nat, ty: TokenType): (r: Read<Token>)
    ensures r.Got? ==> r.next == i + 1 <= |ts|
  {
    if Tok(ts, i, ty) then Got(ts[i], i + 1) else Lost(Unexpected(Expected(ty), TokenAt(ts, i)))
  }

  /** A name behind a token of type `ty`. */
  function NameAfter(ts: seq<Token>, i: nat, ty: TokenType): (r: Read<string>)
    ensures r.Got? <==> Tok(ts, i, ty) && Tok(ts, i + 1, Ident)
    ensures r.Got? ==> r == Got(ts[i + 1].value, i + 2)
  {
    var (_, a) :- EatAt(ts, i, ty);
    var (name, j) :- EatAt(ts, a, Ident);
    Got(name.value, j)
  }

  /** The expression at `i`. */
  function ExprAt(ts: seq<Token>, i: nat): (r: Read<Expr>)
    ensures r.Got? ==> i < r.next <= |ts|
  {
    match ParseLevel(ELVIS, if i < |ts| then ts[i..] else [])
    case Parsed(e, rest) => Got(e, |ts| - |rest|)
    case Stuck(e) => Lost(e)
  }

  function ArgsAt(ts: seq<Token>, i: nat): (r: Read<seq<Expr>>)
    ensures r.Got? ==> i < r.next <= |ts|
  {
    match ParseArgs(if i < |ts| then ts[i..] else [])
    case Parsed(args, rest) => Got(args, |ts| - |rest|)
    case Stuck(e) => Lost(e)
  }

  // ------------------------------------------------------------------ types

  const INFER: TypeNode := InferType(false)

  function Nullable(t: TypeNode): TypeNode {
    match t
    case InferType(_) => InferType(true)
    case NamedType(name, _) => NamedType(name, true)
    case GenericType(name, args, _) => GenericType(name, args, true)
    case PointerType(inner, _) => PointerType(inner, true)
  }

  function TypeAt(ts: seq<Token>, i: nat): (r: Read<TypeNode>)
    ensures r.Got? ==> i < r.next <= |ts|
    decreases |ts| - i, 2
  {
    var (t, j) :- BareTypeAt(ts, i);
    if Tok(ts, j, Question) then Got(Nullable(t), j + 1) else Got(t, j)
  }

  /** A type without its question mark. */
  function BareTypeAt(ts: seq<Token>, i: nat): (r: Read<TypeNode>)
    ensures r.Got? ==> i < r.next <= |ts|
    decreases |ts| - i, 1
  {
    if Tok(ts, i, Star) then
      var (inner, j) :- TypeAt(ts, i + 1);
      Got(PointerType(inner, false), j)
    else NamedTypeAt(ts, i)
  }

  function NamedTypeAt(ts: seq<Token>, i: nat): (r: Read<TypeNode>)
    ensures r.Got? ==> i < r.next <= |ts|
    decreases |ts| - i, 0
  {
    var (name, a) :- EatAt(ts, i, Ident);
    if !Tok(ts, a, LBracket) then Got(NamedType(name.value, false), a)
    else
      var (args, b) :- TypesAt(ts, a + 1);
      var (_, j) :- EatAt(ts, b, RBracket);
      Got(GenericType(name.value, args, false), j)
  }

  function TypesAt(ts: seq<Token>, i: nat): (r: Read<seq<TypeNode>>)
    ensures r.Got? ==> i <= r.next <= |ts|
    decreases |ts| - i, 3
  {
    if Tok(ts, i, RBracket) then Got([], i)
    else
      var (first, a) :- TypeAt(ts, i);
      var (more, j) :- MoreTypesAt(ts, a);
      Got([first] + more, j)
  }

  function MoreTypesAt(ts: seq<Token>, i: nat): (r: Read<seq<TypeNode>>)
    ensures r.Got? && i <= |ts| ==> i <= r.next <= |ts|
    decreases |ts| - i, 3
  {
    if !Tok(ts, i, Comma) then Got([], i)
    else
      var (next, a) :- TypeAt(ts, i + 1);
      var (more, j) :- MoreTypesAt(ts, a);
      Got([next] + more, j)
  }

  // -------------------------------------------------------------- bindings

  /** An optional type behind `mark`. */
  function AnnotationAt(ts: seq<Token>, i: nat, mark: TokenType): (r: Read<TypeNode>)
    ensures r.Got? ==> i <= r.next && (i <= |ts| ==> r.next <= |ts|)
  {
    if Tok(ts, i, mark) then TypeAt(ts, i + 1) else Got(INFER, i)
  }

  function ValueAt(ts: seq<Token>, i: nat): (r: Read<Option<Expr>>)
    ensures r.Got? ==> i <= r.next && (i <= |ts| ==> r.next <= |ts|)
  {
    if !Tok(ts, i, Assign) then Got(None, i)
    else
      var (e, j) :- ExprAt(ts, i + 1);
      Got(Some(e), j)
  }

  function BindingAt(ts: seq<Token>, i: nat): (r: Read<(TypeNode, Option<Expr>)>)
    ensures r.Got? ==> i <= r.next && (i <= |ts| ==> r.next <= |ts|)
  {
    var (t, a) :- AnnotationAt(ts, i, Colon);
    var (init, j) :- ValueAt(ts, a);
    Got((t, init), j)
  }

  function TypedNameAt(ts: seq<Token>, i: nat): (r: Read<(string, TypeNode)>)
    ensures r.Got? ==> i < r.next <= |ts|
  {
    var (name, a) :- EatAt(ts, i, Ident);
    var (_, b) :- EatAt(ts, a, Colon);
    var (t, j) :- TypeAt(ts, b);
    Got((name.value, t), j)
  }

  function ParamAt(ts: seq<Token>, i: nat): (r: Read<Param>)
    ensures r.Got? ==> i < r.next <= |ts|
  {
    var mutable := Tok(ts, i, Var);
    var (typed, a) :- TypedNameAt(ts, if mutable then i + 1 else i);
    var (default, j) :- ValueAt(ts, a);
    Got(Param(typed.0, typed.1, mutable, default), j)
  }

  function ParamsAt(ts: seq<Token>, i: nat): (r: Read<seq<Param>>)
    ensures r.Got? ==> i <= r.next <= |ts|
    decreases |ts| - i, 0
  {
    if Tok(ts, i, RParen) then Got([], i)
    else
      var (p, a) :- ParamAt(ts, i);
      var (more, j) :- MoreParamsAt(ts, a);
      Got([p] + more, j)
  }

  function MoreParamsAt(ts: seq<Token>, i: nat): (r: Read<seq<Param>>)
    ensures r.Got? ==> i <= r.next && (i <= |ts| ==> r.next <= |ts|)
    decreases |ts| - i, 1
  {
    if Tok(ts, i, Comma) then ParamsAt(ts, i + 1) else Got([], i)
  }

  function SignatureAt(ts: seq<Token>, i: nat): (r: Read<(seq<Param>, TypeNode)>)
    ensures r.Got? ==> i < r.next <= |ts|
  {
    var (_, a) :- EatAt(ts, i, LParen);
    var (ps, b) :- ParamsAt(ts, a);
    var (_, c) :- EatAt(ts, b, RParen);
    var (t, j) :- AnnotationAt(ts, c, Arrow);
    Got((ps, t), j)
  }

  // ------------------------------------------------------------ statements

  function AssignOpOf(ty: TokenType): Option<AssignOp> {
    match ty
    case Assign => Some(AssignPlain)
    case PlusEq => Some(AssignPlus)
    case MinusEq => Some(AssignMinus)
    case StarEq => Some(AssignStar)
    case SlashEq => Some(AssignSlash)
    case _ => None
  }

  function PlainStmtAt(ts: seq<Token>, i: nat): (r: Read<Stmt>)
    ensures r.Got? ==> i < r.next <= |ts| && (r.value.ExprS? || r.value.AssignS?)
  {
    var (x, a) :- ExprAt(ts, i);
    var op := AssignOpOf(TokenAt(ts, a).ty);
    if op.None? then Got(ExprS(x), a)
    else
      var (v, j) :- ExprAt(ts, a + 1);
      Got(AssignS(x, op.value, v), j)
  }

  function LetAt(ts: seq<Token>, i: nat): (r: Read<Stmt>)
    ensures r.Got? ==> i < r.next <= |ts| && r.value.LetS?
  {
    var (name, a) :- NameAfter(ts, i, Let);
    var (binding, j) :- BindingAt(ts, a);
    Got(LetS(name, binding.0, binding.1), j)
  }

  function ConstAt(ts: seq<Token>, i: nat): (r: Read<Stmt>)
    ensures r.Got? ==> i < r.next <= |ts| && r.value.ConstS?
  {
    var (name, a) :- NameAfter(ts, i, Const);
    var (binding, j) :- BindingAt(ts, a);
    Got(ConstS(name, binding.0, binding.1), j)
  }

  function VarAt(ts: seq<Token>, i: nat): (r: Read<Stmt>)
    ensures r.Got? ==> i < r.next <= |ts| && r.value.VarS?
  {
    var (name, a) :- NameAfter(ts, i, Var);
    var (binding, j) :- BindingAt(ts, a);
    Got(VarS(name, binding.0, binding.1), j)
  }

  predicate AtReturnEnd(ts: seq<Token>, i: nat) {
    Tok(ts, i, RBrace) || Tok(ts, i, Semicolon) || Tok(ts, i, Eof)
  }

  function ReturnAt(ts: seq<Token>, i: nat): (r: Read<Stmt>)
    ensures r.Got? ==> i < r.next <= |ts| && r.value.ReturnS?
  {
    var (_, a) :- EatAt(ts, i, Return);
    if AtReturnEnd(ts, a) then Got(ReturnS(None), a)
    else
      var (e, j) :- ExprAt(ts, a);
      Got(ReturnS(Some(e)), j)
  }

  function PrintAt(ts: seq<Token>, i: nat): (r: Read<Stmt>)
    ensures r.Got? ==> i < r.next <= |ts| && r.value.PrintS?
  {
    var (_, a) :- EatAt(ts, i, Print);
    var (_, b) :- EatAt(ts, a, LParen);
    var (args, j) :- ArgsAt(ts, b);
    Got(PrintS(args), j)
  }

  /** Names with `mark` between them, the first at `i`. */
  function NamesAt(ts: seq<Token>, i: nat, mark: TokenType): (r: Read<seq<string>>)
    ensures r.Got? ==> r.value != [] && i < r.next <= |ts|
    decreases |ts| - i
  {
    var (name, a) :- EatAt(ts, i, Ident);
    if !Tok(ts, a, mark) then Got([name.value], a)
    else
      var (more, j) :- NamesAt(ts, a + 1, mark);
      Got([name.value] + more, j)
  }

  /** The names with dots between them. */
  function Dots(names: seq<string>): string
    requires names != []
  {
    if |names| == 1 then names[0] else Dots(names[..|names| - 1]) + "." + names[|names| - 1]
  }

  /** Names with dots between them, as one. */
  function PathAt(ts: seq<Token>, i: nat): (r: Read<string>)
    ensures r.Got? ==> i < r.next <= |ts|
  {
    var (names, j) :- NamesAt(ts, i, Dot);
    Got(Dots(names), j)
  }

  function BoundAt(ts: seq<Token>, i: nat): (r: Read<seq<string>>)
    ensures r.Got? ==> i <= r.next && (i <= |ts| ==> r.next <= |ts|)
  {
    if !Tok(ts, i, LParen) then Got([], i)
    else if Tok(ts, i + 1, RParen) then Got([], i + 2)
    else
      var (names, a) :- NamesAt(ts, i + 1, Comma);
      var (_, j) :- EatAt(ts, a, RParen);
      Got(names, j)
  }

  function PatternAt(ts: seq<Token>, i: nat): (r: Read<(string, seq<string>)>)
    ensures r.Got? ==> i <= r.next && (i <= |ts| ==> r.next <= |ts|)
  {
    if Tok(ts, i, Ident) then
      var (path, a) :- PathAt(ts, i);
      var (names, j) :- BoundAt(ts, a);
      Got((path, names), j)
    else if Tok(ts, i, Star) then Got(("_", []), i + 1)
    else Got(("", []), i)
  }

  function StmtAt(ts: seq<Token>, i: nat): (r: Read<Stmt>)
    ensures r.Got? ==> i < r.next <= |ts|
    decreases |ts| - i, 2
  {
    match TokenAt(ts, i).ty
    case Let => LetAt(ts, i)
    case Const => ConstAt(ts, i)
    case Var => VarAt(ts, i)
    case Return => ReturnAt(ts, i)
    case If => IfAt(ts, i)
    case For => ForAt(ts, i)
    case Match => MatchAt(ts, i)
    case Print => PrintAt(ts, i)
    case Unsafe => UnsafeAt(ts, i)
    case _ => PlainStmtAt(ts, i)
  }

  predicate AtListEnd(ts: seq<Token>, i: nat) {
    Tok(ts, i, RBrace) || Tok(ts, i, Eof)
  }

  function StmtsAt(ts: seq<Token>, i: nat): (r: Read<seq<Stmt>>)
    ensures r.Got? ==> i <= r.next <= |ts| && AtListEnd(ts, r.next)
    decreases |ts| - i, 3
  {
    if AtListEnd(ts, i) then Got([], i)
    else
      var (s, a) :- StmtAt(ts, i);
      var (more, j) :- StmtsAt(ts, a);
      Got([s] + more, j)
  }

  function BlockAt(ts: seq<Token>, i: nat): (r: Read<seq<Stmt>>)
    ensures r.Got? ==> i + 1 < r.next <= |ts|
    decreases |ts| - i, 0
  {
    var (_, a) :- EatAt(ts, i, LBrace);
    var (body, b) :- StmtsAt(ts, a);
    var (_, j) :- EatAt(ts, b, RBrace);
    Got(body, j)
  }

  function IfAt(ts: seq<Token>, i: nat): (r: Read<Stmt>)
    ensures r.Got? ==> i < r.next <= |ts| && r.value.IfS?
    decreases |ts| - i, 1
  {
    var (_, a) :- EatAt(ts, i, If);
    var (cond, b) :- ExprAt(ts, a);
    var (thn, c) :- BlockAt(ts, b);
    var (els, j) :- ElseAt(ts, c);
    Got(IfS(cond, thn, els), j)
  }

  function ElseAt(ts: seq<Token>, i: nat): (r: Read<Option<seq<Stmt>>>)
    ensures r.Got? ==> i <= r.next && (i <= |ts| ==> r.next <= |ts|)
    decreases |ts| - i, 0
  {
    if !Tok(ts, i, Else) then Got(None, i)
    else if Tok(ts, i + 1, If) then
      var (nested, j) :- IfAt(ts, i + 1);
      Got(Some([nested]), j)
    else
      var (body, j) :- BlockAt(ts, i + 1);
      Got(Some(body), j)
  }

  function ForAt(ts: seq<Token>, i: nat): (r: Read<Stmt>)
    ensures r.Got? ==> i < r.next <= |ts| && r.value.ForS?
    decreases |ts| - i, 1
  {
    var (name, a) :- NameAfter(ts, i, For);
    var (_, b) :- EatAt(ts, a, In);
    var (iter, c) :- ExprAt(ts, b);
    var (body, j) :- BlockAt(ts, c);
    Got(ForS(name, iter, body), j)
  }

  function MatchAt(ts: seq<Token>, i: nat): (r: Read<Stmt>)
    ensures r.Got? ==> i < r.next <= |ts| && r.value.MatchS?
    decreases |ts| - i, 1
  {
    var (_, a) :- EatAt(ts, i, Match);
    var (e, b) :- ExprAt(ts, a);
    var (_, c) :- EatAt(ts, b, LBrace);
    var (cases, j) :- CasesAt(ts, c);
    Got(MatchS(e, cases), j)
  }

  function CasesAt(ts: seq<Token>, i: nat): (r: Read<seq<MatchCase>>)
    ensures r.Got? ==> i < r.next <= |ts|
    decreases |ts| - i, 3
  {
    if Tok(ts, i, RBrace) then Got([], i + 1)
    else
      var (c, a) :- CaseAt(ts, i);
      var (more, j) :- CasesAt(ts, a);
      Got([c] + more, j)
  }

  function CaseAt(ts: seq<Token>, i: nat): (r: Read<MatchCase>)
    ensures r.Got? ==> i < r.next <= |ts|
    decreases |ts| - i, 0
  {
    var (head, a) :- PatternAt(ts, i);
    var (_, b) :- EatAt(ts, a, FatArrow);
    if Tok(ts, b, LBrace) then
      var (body, j) :- BlockAt(ts, b);
      Got(MatchCase(head.0, head.1, body), j)
    else
      var (s, j) :- StmtAt(ts, b);
      Got(MatchCase(head.0, head.1, [s]), j)
  }

  function UnsafeAt(ts: seq<Token>, i: nat): (r: Read<Stmt>)
    ensures r.Got? ==> i < r.next <= |ts| && r.value.UnsafeS?
    decreases |ts| - i, 1
  {
    var (_, a) :- EatAt(ts, i, Unsafe);
    var (body, j) :- BlockAt(ts, a);
    Got(UnsafeS(body), j)
  }

  // ---------------------------------------------------------- declarations

  function ImportAt(ts: seq<Token>, i: nat): (r: Read<Decl>)
    ensures r.Got? ==> i < r.next <= |ts| && r.value.ImportD?
  {
    var (name, j) :- NameAfter(ts, i, Import);
    Got(ImportD(name), j)
  }

  function ExternFnsAt(ts: seq<Token>, i: nat): (r: Read<seq<ExternFn>>)
    ensures r.Got? ==> i < r.next <= |ts|
    decreases |ts| - i
  {
    if Tok(ts, i, RBrace) then Got([], i + 1)
    else
      var (name, a) :- NameAfter(ts, i, Fn);
      var (sig, b) :- SignatureAt(ts, a);
      var (more, j) :- ExternFnsAt(ts, b);
      Got([ExternFn(name, sig.0, sig.1)] + more, j)
  }

  function BracedExternsAt(ts: seq<Token>, i: nat): (r: Read<seq<ExternFn>>)
    ensures r.Got? ==> i < r.next <= |ts|
  {
    var (_, a) :- EatAt(ts, i, LBrace);
    ExternFnsAt(ts, a)
  }

  function ExternAt(ts: seq<Token>, i: nat): (r: Read<Decl>)
    ensures r.Got? ==> i < r.next <= |ts| && r.value.ExternD?
  {
    var (_, a) :- EatAt(ts, i, Extern);
    var named := Tok(ts, a, StringLiteral);
    var (fns, j) :- BracedExternsAt(ts, if named then a + 1 else a);
    Got(ExternD(if named then ts[a].value else "Rust", fns), j)
  }

  function InterruptAt(ts: seq<Token>, i: nat): (r: Read<Stmt>)
    ensures r.Got? ==> i < r.next <= |ts| && r.value.UnsafeS?
  {
    var (_, a) :- NameAfter(ts, i, Interrupt);
    var (_, b) :- EatAt(ts, a, LParen);
    var (_, c) :- EatAt(ts, b, RParen);
    var (body, j) :- BlockAt(ts, c);
    Got(UnsafeS(body), j)
  }

  function FnBodyAt(ts: seq<Token>, i: nat): (r: Read<(Option<seq<Stmt>>, Option<Expr>)>)
    ensures r.Got? ==> i < r.next <= |ts|
  {
    if Tok(ts, i, FatArrow) || Tok(ts, i, Assign) then
      var (e, a) :- ExprAt(ts, i + 1);
      Got((None, Some(e)), if Tok(ts, a, Semicolon) then a + 1 else a)
    else if Tok(ts, i, LBrace) then
      var (body, j) :- BlockAt(ts, i);
      Got((Some(body), None), j)
    else Lost(Unexpected(FunctionBody, TokenAt(ts, i)))
  }

  /** `fn`, an optional receiver and the name. */
  function FnHeadAt(ts: seq<Token>, i: nat): (r: Read<(Option<string>, string)>)
    ensures r.Got? ==> i < r.next <= |ts|
  {
    var (_, a) :- EatAt(ts, i, Fn);
    var named := Tok(ts, a, Ident) && Tok(ts, a + 1, Dot);
    var (name, j) :- EatAt(ts, if named then a + 2 else a, Ident);
    Got((if named then Some(ts[a].value) else None, name.value), j)
  }

  function FnAt(ts: seq<Token>, i: nat, isAsync: bool, isUnsafe: bool): (r: Read<FnDecl>)
    ensures r.Got? ==> i < r.next <= |ts|
  {
    var (_, a) :- if isAsync then EatAt(ts, i, Async) else Got(EOF_TOKEN, i);
    var (head, b) :- FnHeadAt(ts, a);
    var (sig, c) :- SignatureAt(ts, b);
    var (body, j) :- FnBodyAt(ts, c);
    Got(FnDecl(head.1, sig.0, sig.1, body.0, body.1, isAsync, isUnsafe, head.0), j)
  }

  function MembersAt(ts: seq<Token>, i: nat): (r: Read<seq<FnDecl>>)
    ensures r.Got? ==> i < r.next <= |ts|
    decreases |ts| - i
  {
    if Tok(ts, i, RBrace) then Got([], i + 1)
    else
      var (f, a) :- FnAt(ts, i, false, false);
      var (more, j) :- MembersAt(ts, a);
      Got([f] + more, j)
  }

  /** Where the scan for a closing parenthesis stops. */
  function CloseFrom(ts: seq<Token>, i: nat): (j: nat)
    requires i <= |ts|
    ensures i <= j <= |ts|
    decreases |ts| - i
  {
    if i == |ts| || ts[i].Is(RParen) || ts[i].Is(Eof) then i else CloseFrom(ts, i + 1)
  }

  function SkipParens(ts: seq<Token>, i: nat): (j: nat)
    requires i <= |ts|
    ensures i <= j <= |ts|
  {
    if !Tok(ts, i, LParen) then i
    else
      var c := CloseFrom(ts, i + 1);
      if Tok(ts, c, RParen) then c + 1 else c
  }

  function BasesAt(ts: seq<Token>, i: nat): (r: Read<seq<string>>)
    ensures r.Got? ==> i < r.next <= |ts|
    decreases |ts| - i
  {
    var (name, a) :- EatAt(ts, i, Ident);
    var b := SkipParens(ts, a);
    if !Tok(ts, b, Comma) then Got([name.value], b)
    else
      var (more, j) :- BasesAt(ts, b + 1);
      Got([name.value] + more, j)
  }

  function ClassParamsAt(ts: seq<Token>, i: nat): (r: Read<seq<Param>>)
    ensures r.Got? ==> i <= r.next && (i <= |ts| ==> r.next <= |ts|)
  {
    if !Tok(ts, i, LParen) then Got([], i)
    else
      var (ps, a) :- ParamsAt(ts, i + 1);
      var (_, j) :- EatAt(ts, a, RParen);
      Got(ps, j)
  }

  function ClassBasesAt(ts: seq<Token>, i: nat): (r: Read<seq<string>>)
    ensures r.Got? ==> i <= r.next && (i <= |ts| ==> r.next <= |ts|)
  {
    if Tok(ts, i, Colon) then BasesAt(ts, i + 1) else Got([], i)
  }

  /** Member functions and subclasses. */
  function ClassBodyAt(ts: seq<Token>, i: nat, isSealed: bool): (r: Read<(seq<FnDecl>, seq<ClassDecl>)>)
    ensures r.Got? ==> i <= r.next && (i <= |ts| ==> r.next <= |ts|)
    decreases |ts| - i, 0
  {
    if isSealed && Tok(ts, i, LBrace) && Tok(ts, i + 1, Class) then
      var (cs, j) :- SubclassesAt(ts, i + 1);
      Got(([], cs), j)
    else
      var (fns, j) :- ClassFnsAt(ts, i);
      Got((fns, []), j)
  }

  function ClassFnsAt(ts: seq<Token>, i: nat): (r: Read<seq<FnDecl>>)
    ensures r.Got? ==> i <= r.next && (i <= |ts| ==> r.next <= |ts|)
  {
    if Tok(ts, i, LBrace) then ClassMembersAt(ts, i + 1) else Got([], i)
  }

  function ClassMembersAt(ts: seq<Token>, i: nat): (r: Read<seq<FnDecl>>)
    ensures r.Got? ==> i < r.next <= |ts|
    decreases |ts| - i
  {
    if Tok(ts, i, RBrace) then Got([], i + 1)
    else if !Tok(ts, i, Fn) then Lost(Unexpected(FnInClass, TokenAt(ts, i)))
    else
      var (f, a) :- FnAt(ts, i, false, false);
      var (more, j) :- ClassMembersAt(ts, a);
      Got([f] + more, j)
  }

  function SubclassesAt(ts: seq<Token>, i: nat): (r: Read<seq<ClassDecl>>)
    ensures r.Got? ==> i < r.next <= |ts|
    decreases |ts| - i, 1
  {
    if Tok(ts, i, RBrace) then Got([], i + 1)
    else
      var (_, a) :- EatAt(ts, i, Class);
      var (c, b) :- ClassAt(ts, a, false, false);
      var (more, j) :- SubclassesAt(ts, b);
      Got([c] + more, j)
  }

  function ClassAt(ts: seq<Token>, i: nat, isData: bool, isSealed: bool): (r: Read<ClassDecl>)
    ensures r.Got? ==> i < r.next <= |ts|
    decreases |ts| - i, 1
  {
    var (name, a) :- EatAt(ts, i, Ident);
    var (params, b) :- ClassParamsAt(ts, a);
    var (bases, c) :- ClassBasesAt(ts, b);
    var (body, j) :- ClassBodyAt(ts, c, isSealed);
    Got(ClassDecl(name.value, isData, isSealed, params, bases, body.0, body.1), j)
  }

  function BracedMembersAt(ts: seq<Token>, i: nat): (r: Read<seq<FnDecl>>)
    ensures r.Got? ==> i < r.next <= |ts|
  {
    var (_, a) :- EatAt(ts, i, LBrace);
    MembersAt(ts, a)
  }

  function InterfaceAt(ts: seq<Token>, i: nat): (r: Read<Decl>)
    ensures r.Got? ==> i < r.next <= |ts| && r.value.InterfaceD?
  {
    var (name, a) :- NameAfter(ts, i, Interface);
    var (methods, j) :- BracedMembersAt(ts, a);
    Got(InterfaceD(name, methods), j)
  }

  function ObjectAt(ts: seq<Token>, i: nat): (r: Read<Decl>)
    ensures r.Got? ==> i < r.next <= |ts| && r.value.ObjectD?
  {
    var (name, a) :- NameAfter(ts, i, Object);
    var (members, j) :- BracedMembersAt(ts, a);
    Got(ObjectD(name, members), j)
  }

  function DriverAt(ts: seq<Token>, i: nat): (r: Read<Decl>)
    ensures r.Got? ==> i < r.next <= |ts| && r.value.DriverD?
  {
    var (name, a) :- NameAfter(ts, i, Driver);
    var (implements, b) :- NameAfter(ts, a, Colon);
    var (members, j) :- BracedMembersAt(ts, b);
    Got(DriverD(name, implements, members), j)
  }

  /** `data class`, `sealed class` or `class`. */
  function ClassDeclAt(ts: seq<Token>, i: nat): (r: Read<Decl>)
    ensures r.Got? ==> i < r.next <= |ts| && r.value.ClassD?
  {
    var isData, isSealed := Tok(ts, i, Data), Tok(ts, i, Sealed);
    var (_, a) :- EatAt(ts, if isData || isSealed then i + 1 else i, Class);
    var (c, j) :- ClassAt(ts, a, isData, isSealed);
    Got(ClassD(c), j)
  }

  /** A function, which may be unsafe. */
  function FnDeclAt(ts: seq<Token>, i: nat): (r: Read<Decl>)
    ensures r.Got? ==> i < r.next <= |ts| && r.value.FnD?
  {
    var isUnsafe := Tok(ts, i, Unsafe);
    var (f, j) :- FnAt(ts, if isUnsafe then i + 1 else i, false, isUnsafe);
    Got(FnD(f), j)
  }

  function StmtDeclAt(ts: seq<Token>, i: nat): (r: Read<Decl>)
    ensures r.Got? ==> i < r.next <= |ts| && r.value.StmtD?
  {
    var (s, j) :- if Tok(ts, i, Interrupt) then InterruptAt(ts, i) else StmtAt(ts, i);
    Got(StmtD(s), j)
  }

  function DeclAt(ts: seq<Token>, i: nat): (r: Read<Decl>)
    ensures r.Got? ==> i < r.next <= |ts|
  {
    match TokenAt(ts, i).ty
    case Import => ImportAt(ts, i)
    case Extern => ExternAt(ts, i)
    case Async => FnDeclAt(ts, i)
    case Fn => FnDeclAt(ts, i)
    case Unsafe => if Tok(ts, i + 1, Fn) then FnDeclAt(ts, i) else StmtDeclAt(ts, i)
    case Data => ClassDeclAt(ts, i)
    case Sealed => ClassDeclAt(ts, i)
    case Class => ClassDeclAt(ts, i)
    case Interface => InterfaceAt(ts, i)
    case Object => ObjectAt(ts, i)
    case Driver => DriverAt(ts, i)
    case _ => StmtDeclAt(ts, i)
  }

  function DeclsAt(ts: seq<Token>, i: nat): (r: Read<seq<Decl>>)
    ensures r.Got? ==> i <= r.next < |ts| && ts[r.next].Is(Eof)
    decreases |ts| - i
  {
    if Tok(ts, i, Eof) then Got([], i)
    else
      var (d, a) :- DeclAt(ts, i);
      var (more, j) :- DeclsAt(ts, a);
      Got([d] + more, j)
  }
}
