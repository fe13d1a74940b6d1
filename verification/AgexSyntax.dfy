/** The grammar of types, statements, declarations and whole programs: which tokens
    `ts[i..j]` are which tree.  Nothing here mentions the parser; phrases are those
    of AgexGrammar.dfy, each as long as the tokens behind it allow. */
module AgexSyntax {
  import opened AgexAst
  import opened AgexGrammar
  import opened AgexComplete
  import opened Wrappers

  /** A name. */
  predicate Name(ts: seq<Token>, i: nat, name: string) {
    i < |ts| && ts[i] == Token(Ident, name)
  }

  ghost predicate IsExpr(ts: seq<Token>, i: nat, j: nat, e: Expr) {
    i < j <= |ts| && Derives(0, ts[i..j], e) && Halts(0, ts[i..j], ts[j..])
  }

  /** Arguments and the parenthesis that closes them. */
  ghost predicate IsArgs(ts: seq<Token>, i: nat, j: nat, args: seq<Expr>) {
    i < j <= |ts| && DerivesArgs(ts[i..j], args)
  }

  // ------------------------------------------------------------------ types

  /** A question mark makes a type nullable. */
  predicate IsMark(ts: seq<Token>, i: nat, j: nat, nullable: bool) {
    nullable == Tok(ts, i, Question) && j == if nullable then i + 1 else i
  }

  ghost predicate IsType(ts: seq<Token>, i: nat, j: nat, t: TypeNode)
    decreases t, 1
  {
    exists m: nat :: IsBareType(ts, i, m, t) && IsMark(ts, m, j, t.nullable)
  }

  /** `*T`, `name[T, ...]` or `name`. */
  ghost predicate IsBareType(ts: seq<Token>, i: nat, j: nat, t: TypeNode)
    decreases t, 0
  {
    match t
    case InferType(_) => false
    case PointerType(inner, _) => Tok(ts, i, Star) && IsType(ts, i + 1, j, inner)
    case NamedType(name, _) => Name(ts, i, name) && !Tok(ts, i + 1, LBracket) && j == i + 1
    case GenericType(name, args, _) =>
      Name(ts, i, name) && Tok(ts, i + 1, LBracket) && j > i + 2 && IsTypes(ts, i + 2, j - 1, args)
        && Tok(ts, j - 1, RBracket)
  }

  ghost predicate IsTypes(ts: seq<Token>, i: nat, j: nat, args: seq<TypeNode>)
    decreases args, 0
  {
    if args == [] then j == i && Tok(ts, i, RBracket)
    else exists m: nat :: IsType(ts, i, m, args[0]) && IsMoreTypes(ts, m, j, args[1..])
  }

  ghost predicate IsMoreTypes(ts: seq<Token>, i: nat, j: nat, args: seq<TypeNode>)
    decreases args, 0
  {
    if args == [] then j == i && !Tok(ts, i, Comma)
    else Tok(ts, i, Comma) && exists m: nat :: IsType(ts, i + 1, m, args[0]) && IsMoreTypes(ts, m, j, args[1..])
  }

  // ------------------------------------------- what names are given

  /** An optional type. */
  ghost predicate IsAnnotation(ts: seq<Token>, i: nat, j: nat, mark: TokenType, t: TypeNode) {
    if Tok(ts, i, mark) then IsType(ts, i + 1, j, t) else j == i && t == InferType(false)
  }

  /** An optional value behind `=`. */
  ghost predicate IsValue(ts: seq<Token>, i: nat, j: nat, init: Option<Expr>) {
    match init
    case None => j == i && !Tok(ts, i, Assign)
    case Some(e) => Tok(ts, i, Assign) && IsExpr(ts, i + 1, j, e)
  }

  ghost predicate IsBinding(ts: seq<Token>, i: nat, j: nat, t: TypeNode, init: Option<Expr>) {
    exists m: nat :: IsAnnotation(ts, i, m, Colon, t) && IsValue(ts, m, j, init)
  }

  /** `var name: T = e`, without `var` for an immutable parameter. */
  ghost predicate IsParam(ts: seq<Token>, i: nat, j: nat, p: Param) {
    var n := if p.mutable then i + 1 else i;
    && p.mutable == Tok(ts, i, Var) && Name(ts, n, p.name) && Tok(ts, n + 1, Colon)
    && exists m: nat :: IsType(ts, n + 2, m, p.ty) && IsValue(ts, m, j, p.default)
  }

  /** Parameters up to the closing parenthesis; a comma may follow the last one. */
  ghost predicate IsParams(ts: seq<Token>, i: nat, j: nat, ps: seq<Param>)
    decreases |ps|, 0
  {
    if ps == [] then j == i && Tok(ts, i, RParen)
    else !Tok(ts, i, RParen) && exists m: nat :: IsParam(ts, i, m, ps[0]) && IsMoreParams(ts, m, j, ps[1..])
  }

  ghost predicate IsMoreParams(ts: seq<Token>, i: nat, j: nat, ps: seq<Param>)
    decreases |ps|, 1
  {
    if Tok(ts, i, Comma) then IsParams(ts, i + 1, j, ps) else j == i && ps == []
  }

  /** Parameters in parentheses and an optional result type. */
  ghost predicate IsSignature(ts: seq<Token>, i: nat, j: nat, ps: seq<Param>, t: TypeNode) {
    && Tok(ts, i, LParen)
    && exists m: nat :: IsParams(ts, i + 1, m, ps) && Tok(ts, m, RParen) && IsAnnotation(ts, m + 1, j, Arrow, t)
  }

  // ------------------------------------------------------------- statements

  /** Keywords that start a statement of their own. */
  predicate StmtKeyword(ty: TokenType) {
    ty.Let? || ty.Const? || ty.Var? || ty.Return? || ty.If? || ty.For? || ty.Match? || ty.Print? || ty.Unsafe?
  }

  function AssignMark(op: AssignOp): TokenType {
    match op
    case AssignPlain => Assign
    case AssignPlus => PlusEq
    case AssignMinus => MinusEq
    case AssignStar => StarEq
    case AssignSlash => SlashEq
  }

  /** `target op value`. */
  ghost predicate IsAssign(ts: seq<Token>, i: nat, j: nat, target: Expr, op: AssignOp, value: Expr) {
    exists m: nat :: IsExpr(ts, i, m, target) && Tok(ts, m, AssignMark(op)) && IsExpr(ts, m + 1, j, value)
  }

  predicate AssignAt(ts: seq<Token>, i: nat) {
    Tok(ts, i, Assign) || Tok(ts, i, PlusEq) || Tok(ts, i, MinusEq) || Tok(ts, i, StarEq) || Tok(ts, i, SlashEq)
  }

  /** A statement that no keyword starts. */
  ghost predicate IsPlainStmt(ts: seq<Token>, i: nat, j: nat, s: Stmt) {
    match s
    case ExprS(e) => IsExpr(ts, i, j, e) && !AssignAt(ts, j)
    case AssignS(target, op, value) => IsAssign(ts, i, j, target, op, value)
    case _ => false
  }

  predicate EndOfStmt(ts: seq<Token>, i: nat) {
    Tok(ts, i, RBrace) || Tok(ts, i, Semicolon) || Tok(ts, i, Eof)
  }

  predicate EndOfStmts(ts: seq<Token>, i: nat) {
    Tok(ts, i, RBrace) || Tok(ts, i, Eof)
  }

  ghost predicate IsReturn(ts: seq<Token>, i: nat, j: nat, result: Option<Expr>) {
    && Tok(ts, i, Return)
    && match result
       case None => j == i + 1 && EndOfStmt(ts, j)
       case Some(e) => !EndOfStmt(ts, i + 1) && IsExpr(ts, i + 1, j, e)
  }

  ghost predicate IsStmt(ts: seq<Token>, i: nat, j: nat, s: Stmt)
    decreases |ts| - i, 2
  {
    match s
    case LetS(name, t, init) => Tok(ts, i, Let) && Name(ts, i + 1, name) && IsBinding(ts, i + 2, j, t, init)
    case ConstS(name, t, init) => Tok(ts, i, Const) && Name(ts, i + 1, name) && IsBinding(ts, i + 2, j, t, init)
    case VarS(name, t, init) => Tok(ts, i, Var) && Name(ts, i + 1, name) && IsBinding(ts, i + 2, j, t, init)
    case ReturnS(result) => IsReturn(ts, i, j, result)
    case IfS(_, _, _) => IsIf(ts, i, j, s)
    case ForS(_, _, _) => IsFor(ts, i, j, s)
    case MatchS(_, _) => IsMatch(ts, i, j, s)
    case PrintS(args) => Tok(ts, i, Print) && Tok(ts, i + 1, LParen) && IsArgs(ts, i + 2, j, args)
    case UnsafeS(body) => Tok(ts, i, Unsafe) && IsBlock(ts, i + 1, j, body)
    case _ => i < |ts| && !StmtKeyword(ts[i].ty) && IsPlainStmt(ts, i, j, s)
  }

  ghost predicate IsFor(ts: seq<Token>, i: nat, j: nat, s: Stmt)
    requires s.ForS?
    decreases |ts| - i, 1
  {
    && Tok(ts, i, For) && Name(ts, i + 1, s.variable) && Tok(ts, i + 2, In)
    && exists m: nat :: i < m && IsExpr(ts, i + 3, m, s.iter) && IsBlock(ts, m, j, s.body)
  }

  ghost predicate IsMatch(ts: seq<Token>, i: nat, j: nat, s: Stmt)
    requires s.MatchS?
    decreases |ts| - i, 1
  {
    && Tok(ts, i, Match)
    && exists m: nat ::
       i < m && IsExpr(ts, i + 1, m, s.scrutinee) && Tok(ts, m, LBrace) && IsCases(ts, m + 1, j, s.cases)
  }

  ghost predicate IsIf(ts: seq<Token>, i: nat, j: nat, s: Stmt)
    requires s.IfS?
    decreases |ts| - i, 1
  {
    && Tok(ts, i, If)
    && exists m: nat, n: nat ::
       i < m < n && IsExpr(ts, i + 1, m, s.cond) && IsBlock(ts, m, n, s.thn) && IsElse(ts, n, j, s.els)
  }

  /** Nothing, `else` with a block, or `else` with another `if`. */
  ghost predicate IsElse(ts: seq<Token>, i: nat, j: nat, els: Option<seq<Stmt>>)
    decreases |ts| - i, 0
  {
    match els
    case None => j == i && !Tok(ts, i, Else)
    case Some(body) =>
      && Tok(ts, i, Else)
      && if Tok(ts, i + 1, If) then |body| == 1 && body[0].IfS? && IsIf(ts, i + 1, j, body[0])
         else IsBlock(ts, i + 1, j, body)
  }

  ghost predicate IsBlock(ts: seq<Token>, i: nat, j: nat, body: seq<Stmt>)
    decreases |ts| - i, 0
  {
    Tok(ts, i, LBrace) && j > i + 1 && IsStmts(ts, i + 1, j - 1, body) && Tok(ts, j - 1, RBrace)
  }

  /** Statements up to a closing brace or the end of input. */
  ghost predicate IsStmts(ts: seq<Token>, i: nat, j: nat, body: seq<Stmt>)
    decreases |ts| - i, 3
  {
    if body == [] then j == i && EndOfStmts(ts, i)
    else
      && !EndOfStmts(ts, i)
      && exists m: nat :: i < m <= |ts| && IsStmt(ts, i, m, body[0]) && IsStmts(ts, m, j, body[1..])
  }

  /** Cases and the brace that closes them. */
  ghost predicate IsCases(ts: seq<Token>, i: nat, j: nat, cases: seq<MatchCase>)
    decreases |ts| - i, 1
  {
    if cases == [] then j == i + 1 && Tok(ts, i, RBrace)
    else
      && !Tok(ts, i, RBrace)
      && exists m: nat :: i < m <= |ts| && IsCase(ts, i, m, cases[0]) && IsCases(ts, m, j, cases[1..])
  }

  ghost predicate IsCase(ts: seq<Token>, i: nat, j: nat, c: MatchCase)
    decreases |ts| - i, 0
  {
    exists m: nat ::
      && i <= m && IsPattern(ts, i, m, c.pattern, c.bindings) && Tok(ts, m, FatArrow)
      && if Tok(ts, m + 1, LBrace) then IsBlock(ts, m + 1, j, c.body)
         else |c.body| == 1 && IsStmt(ts, m + 1, j, c.body[0])
  }

  // --------------------------------------------------------------- patterns

  /** The names joined by dots. */
  function Path(names: seq<string>): string {
    if names == [] then "" else if |names| == 1 then names[0] else names[0] + "." + Path(names[1..])
  }

  /** Names with `mark` between them and none behind. */
  predicate IsNames(ts: seq<Token>, i: nat, j: nat, mark: TokenType, names: seq<string>) {
    && names != [] && j == i + 2 * |names| - 1 <= |ts| && !Tok(ts, j, mark)
    && (forall k :: 0 <= k < |names| ==> ts[i + 2 * k] == Token(Ident, names[k]))
    && forall k :: 0 < k < |names| ==> ts[i + 2 * k - 1].Is(mark)
  }

  /** Names in parentheses, or nothing. */
  predicate IsBound(ts: seq<Token>, i: nat, j: nat, names: seq<string>) {
    if !Tok(ts, i, LParen) then j == i && names == []
    else if names == [] then Tok(ts, i + 1, RParen) && j == i + 2
    else j > i && IsNames(ts, i + 1, j - 1, Comma, names) && Tok(ts, j - 1, RParen)
  }

  /** Nothing, `*`, or a path with the names it binds. */
  ghost predicate IsPattern(ts: seq<Token>, i: nat, j: nat, pattern: string, names: seq<string>) {
    if Tok(ts, i, Ident) then
      exists m: nat, path :: IsNames(ts, i, m, Dot, path) && pattern == Path(path) && IsBound(ts, m, j, names)
    else names == [] && if Tok(ts, i, Star) then j == i + 1 && pattern == "_" else j == i && pattern == ""
  }

  // ------------------------------------------------------------ declarations

  /** `=> e`, `= e` with an optional semicolon, or a block. */
  ghost predicate IsFnBody(ts: seq<Token>, i: nat, j: nat, body: Option<seq<Stmt>>, expr: Option<Expr>) {
    if Tok(ts, i, FatArrow) || Tok(ts, i, Assign) then
      && body == None && expr.Some?
      && exists m: nat :: IsExpr(ts, i + 1, m, expr.value) && j == if Tok(ts, m, Semicolon) then m + 1 else m
    else expr == None && body.Some? && IsBlock(ts, i, j, body.value)
  }

  /** `fn recv.name(...)` or `fn name(...)`: the name stands at `n`. */
  predicate IsFnHead(ts: seq<Token>, i: nat, n: nat, receiver: Option<string>) {
    && Tok(ts, i, Fn)
    && if Tok(ts, i + 1, Ident) && Tok(ts, i + 2, Dot) then n == i + 3 && receiver == Some(ts[i + 1].value)
       else n == i + 1 && receiver == None
  }

  ghost predicate IsFn(ts: seq<Token>, i: nat, j: nat, isAsync: bool, isUnsafe: bool, f: FnDecl) {
    var k := if isAsync then i + 1 else i;
    && (isAsync ==> Tok(ts, i, Async)) && f.isAsync == isAsync && f.isUnsafe == isUnsafe
    && exists n: nat, m: nat ::
       && IsFnHead(ts, k, n, f.receiver) && Name(ts, n, f.name)
       && IsSignature(ts, n + 1, m, f.params, f.returnType) && IsFnBody(ts, m, j, f.body, f.exprBody)
  }

  /** Functions and the brace that closes them. */
  ghost predicate IsMembers(ts: seq<Token>, i: nat, j: nat, members: seq<FnDecl>)
    decreases |members|
  {
    if members == [] then j == i + 1 && Tok(ts, i, RBrace)
    else
      && !Tok(ts, i, RBrace)
      && exists m: nat :: IsFn(ts, i, m, false, false, members[0]) && IsMembers(ts, m, j, members[1..])
  }

  /** Anything in parentheses, up to the first closing one or the end of input. */
  predicate IsSkipped(ts: seq<Token>, i: nat, j: nat) {
    if !Tok(ts, i, LParen) then j == i
    else if j > i + 1 && Tok(ts, j - 1, RParen) then
      forall k :: i < k < j - 1 ==> !Tok(ts, k, RParen) && !Tok(ts, k, Eof)
    else j > i && Tok(ts, j, Eof) && forall k :: i < k < j ==> !Tok(ts, k, RParen) && !Tok(ts, k, Eof)
  }

  /** Names of base types, each with arguments that are skipped. */
  ghost predicate IsBases(ts: seq<Token>, i: nat, j: nat, bases: seq<string>)
    decreases |bases|, 0
  {
    && bases != [] && Name(ts, i, bases[0])
    && exists m: nat :: IsSkipped(ts, i + 1, m) && IsMoreBases(ts, m, j, bases[1..])
  }

  ghost predicate IsMoreBases(ts: seq<Token>, i: nat, j: nat, bases: seq<string>)
    decreases |bases|, 1
  {
    if Tok(ts, i, Comma) then bases != [] && IsBases(ts, i + 1, j, bases) else j == i && bases == []
  }

  /** A class from its name on. */
  ghost predicate IsClass(ts: seq<Token>, i: nat, j: nat, isData: bool, isSealed: bool, c: ClassDecl)
    decreases |ts| - i, 1
  {
    && c.isData == isData && c.isSealed == isSealed && Name(ts, i, c.name)
    && exists m: nat, n: nat ::
       && i < m <= n && IsClassParams(ts, i + 1, m, c.params) && IsClassBases(ts, m, n, c.bases)
       && IsClassBody(ts, n, j, isSealed, c)
  }

  ghost predicate IsClassParams(ts: seq<Token>, i: nat, j: nat, ps: seq<Param>) {
    if Tok(ts, i, LParen) then j > i + 1 && IsParams(ts, i + 1, j - 1, ps) && Tok(ts, j - 1, RParen)
    else j == i && ps == []
  }

  ghost predicate IsClassBases(ts: seq<Token>, i: nat, j: nat, bases: seq<string>) {
    if Tok(ts, i, Colon) then IsBases(ts, i + 1, j, bases) else j == i && bases == []
  }

  /** Functions in braces or nothing; a sealed class may hold classes instead. */
  ghost predicate IsClassBody(ts: seq<Token>, i: nat, j: nat, isSealed: bool, c: ClassDecl)
    decreases |ts| - i, 0
  {
    if isSealed && Tok(ts, i, LBrace) && Tok(ts, i + 1, Class) then
      c.members == [] && IsSubclasses(ts, i + 1, j, c.subclasses)
    else c.subclasses == [] && IsFns(ts, i, j, c.members)
  }

  ghost predicate IsFns(ts: seq<Token>, i: nat, j: nat, members: seq<FnDecl>) {
    if Tok(ts, i, LBrace) then IsMembers(ts, i + 1, j, members) else j == i && members == []
  }

  /** The classes of a sealed one and the brace that closes them. */
  ghost predicate IsSubclasses(ts: seq<Token>, i: nat, j: nat, cs: seq<ClassDecl>)
    decreases |ts| - i, 2
  {
    if cs == [] then j == i + 1 && Tok(ts, i, RBrace)
    else
      && Tok(ts, i, Class)
      && exists m: nat :: i < m && IsClass(ts, i + 1, m, false, false, cs[0]) && IsSubclasses(ts, m, j, cs[1..])
  }

  ghost predicate IsExternFns(ts: seq<Token>, i: nat, j: nat, fns: seq<ExternFn>)
    decreases |fns|
  {
    if fns == [] then j == i + 1 && Tok(ts, i, RBrace)
    else
      && Tok(ts, i, Fn) && Name(ts, i + 1, fns[0].name)
      && exists m: nat ::
         IsSignature(ts, i + 2, m, fns[0].params, fns[0].returnType) && IsExternFns(ts, m, j, fns[1..])
  }

  /** The ABI is `Rust` where none is given. */
  ghost predicate IsExtern(ts: seq<Token>, i: nat, j: nat, abi: string, fns: seq<ExternFn>) {
    && Tok(ts, i, Extern)
    && if Tok(ts, i + 1, StringLiteral) then
         abi == ts[i + 1].value && Tok(ts, i + 2, LBrace) && IsExternFns(ts, i + 3, j, fns)
       else abi == "Rust" && Tok(ts, i + 1, LBrace) && IsExternFns(ts, i + 2, j, fns)
  }

  /** Keywords that start a declaration, `unsafe` apart. */
  predicate DeclKeyword(ty: TokenType) {
    || ty.Import? || ty.Extern? || ty.Async? || ty.Fn? || ty.Interrupt? || ty.Data? || ty.Sealed?
    || ty.Class? || ty.Interface? || ty.Object? || ty.Driver?
  }

  ghost predicate IsFnDecl(ts: seq<Token>, i: nat, j: nat, f: FnDecl) {
    if Tok(ts, i, Unsafe) then IsFn(ts, i + 1, j, false, true, f) else IsFn(ts, i, j, false, false, f)
  }

  /** `data class`, `sealed class` or `class`. */
  ghost predicate IsClassDecl(ts: seq<Token>, i: nat, j: nat, c: ClassDecl) {
    var n := if Tok(ts, i, Data) || Tok(ts, i, Sealed) then i + 1 else i;
    Tok(ts, n, Class) && IsClass(ts, n + 1, j, Tok(ts, i, Data), Tok(ts, i, Sealed), c)
  }

  /** Interrupt handlers become unsafe blocks. */
  ghost predicate IsInterrupt(ts: seq<Token>, i: nat, j: nat, s: Stmt) {
    && s.UnsafeS? && Tok(ts, i, Interrupt) && Tok(ts, i + 1, Ident) && Tok(ts, i + 2, LParen) && Tok(ts, i + 3, RParen)
    && IsBlock(ts, i + 4, j, s.body)
  }

  /** A declaration or statement at the top level; no declaration starts with `async`. */
  ghost predicate IsDecl(ts: seq<Token>, i: nat, j: nat, d: Decl) {
    match d
    case ImportD(name) => Tok(ts, i, Import) && Name(ts, i + 1, name) && j == i + 2
    case ExternD(abi, fns) => IsExtern(ts, i, j, abi, fns)
    case FnD(f) => IsFnDecl(ts, i, j, f)
    case ClassD(c) => IsClassDecl(ts, i, j, c)
    case InterfaceD(name, methods) =>
      Tok(ts, i, Interface) && Name(ts, i + 1, name) && Tok(ts, i + 2, LBrace) && IsMembers(ts, i + 3, j, methods)
    case ObjectD(name, members) =>
      Tok(ts, i, Object) && Name(ts, i + 1, name) && Tok(ts, i + 2, LBrace) && IsMembers(ts, i + 3, j, members)
    case DriverD(name, implements, members) =>
      && Tok(ts, i, Driver) && Name(ts, i + 1, name) && Tok(ts, i + 2, Colon) && Name(ts, i + 3, implements)
      && Tok(ts, i + 4, LBrace) && IsMembers(ts, i + 5, j, members)
    case StmtD(s) =>
      if Tok(ts, i, Interrupt) then IsInterrupt(ts, i, j, s)
      else
        && i < |ts| && !DeclKeyword(ts[i].ty) && !(Tok(ts, i, Unsafe) && Tok(ts, i + 1, Fn))
        && IsStmt(ts, i, j, s)
  }

  ghost predicate IsDecls(ts: seq<Token>, i: nat, ds: seq<Decl>)
    decreases |ds|
  {
    if ds == [] then Tok(ts, i, Eof)
    else !Tok(ts, i, Eof) && exists m: nat :: IsDecl(ts, i, m, ds[0]) && IsDecls(ts, m, ds[1..])
  }

  /** The tokens are a program. */
  ghost predicate IsProgram(ts: seq<Token>, p: Program) {
    IsDecls(ts, 0, p.decls)
  }
}
