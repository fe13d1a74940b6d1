/** Tokens and syntax trees of the agex language. */
module AgexAst {
  import opened Wrappers

  datatype TokenType =
    | Let | Const | Var | Fn | Return | If | Else | For | In | Range | Match
    | Class | Data | Sealed | Interface | Object | Driver | Async | Await
    | Unsafe | Extern | Import | Print | Interrupt | Capability
    | IntLiteral | FloatLiteral | StringLiteral | CharLiteral
    | Ident
    | Arrow | FatArrow | Assign
    | PlusEq | MinusEq | StarEq | SlashEq
    | Plus | Minus | Star | Slash | Percent
    | Eq | Neq | LT | LE | GT | GE
    | And | Or | Not
    | Amp | Pipe
    | Question
    | Ellipsis
    | LBrace | RBrace | LParen | RParen | LBracket | RBracket
    | Comma | Colon | Semicolon | Dot
    | Eof

  datatype Token = Token(ty: TokenType, value: string) {
    /** Whether this is a token of type `k`. */
    predicate Is(k: TokenType) {
      this == Token(k, value)
    }
  }

  /** Token `i` is one of type `ty`. */
  predicate Tok(ts: seq<Token>, i: nat, ty: TokenType) {
    i < |ts| && ts[i].Is(ty)
  }

  datatype TypeNode =
    | InferType(nullable: bool)
    | NamedType(name: string, nullable: bool)
    | GenericType(name: string, args: seq<TypeNode>, nullable: bool)
    | PointerType(inner: TypeNode, nullable: bool)

  datatype Param = Param(name: string, ty: TypeNode, mutable: bool, default: Option<Expr>)

  datatype FnDecl = FnDecl(
    name: string, params: seq<Param>, returnType: TypeNode,
    body: Option<seq<Stmt>>, exprBody: Option<Expr>,
    isAsync: bool, isUnsafe: bool, receiver: Option<string>)

  datatype ClassDecl = ClassDecl(
    name: string, isData: bool, isSealed: bool, params: seq<Param>,
    bases: seq<string>, members: seq<FnDecl>, subclasses: seq<ClassDecl>)

  datatype ExternFn = ExternFn(name: string, params: seq<Param>, returnType: TypeNode)

  datatype Decl =
    | FnD(fn: FnDecl)
    | ClassD(cls: ClassDecl)
    | InterfaceD(name: string, methods: seq<FnDecl>)
    | ObjectD(name: string, members: seq<FnDecl>)
    | DriverD(name: string, implements: string, members: seq<FnDecl>)
    | ImportD(moduleName: string)
    | ExternD(abi: string, fns: seq<ExternFn>)
    | StmtD(stmt: Stmt)

  datatype Program = Program(decls: seq<Decl>)

  datatype AssignOp = AssignPlain | AssignPlus | AssignMinus | AssignStar | AssignSlash

  datatype MatchCase = MatchCase(pattern: string, bindings: seq<string>, body: seq<Stmt>)

  datatype Stmt =
    | LetS(name: string, ty: TypeNode, init: Option<Expr>)
    | ConstS(name: string, ty: TypeNode, init: Option<Expr>)
    | VarS(name: string, ty: TypeNode, init: Option<Expr>)
    | AssignS(target: Expr, op: AssignOp, value: Expr)
    | ReturnS(result: Option<Expr>)
    | IfS(cond: Expr, thn: seq<Stmt>, els: Option<seq<Stmt>>)
    | ForS(variable: string, iter: Expr, body: seq<Stmt>)
    | MatchS(scrutinee: Expr, cases: seq<MatchCase>)
    | PrintS(args: seq<Expr>)
    | UnsafeS(body: seq<Stmt>)
    | ExprS(expr: Expr)

  datatype Expr =
    | IntE(text: string)
    | FloatE(text: string)
    | StringE(text: string)
    | BoolE(b: bool)
    | NullE
    | ThisE
    | IdentE(name: string)
    | BinaryE(op: string, left: Expr, right: Expr)
    | UnaryE(op: string, operand: Expr)
    | CallE(callee: Expr, args: seq<Expr>)
    | MethodE(recv: Expr, name: string, args: seq<Expr>)
    | FieldE(recv: Expr, name: string)
    | SafeCallE(recv: Expr, name: string, args: seq<Expr>)
    | ElvisE(left: Expr, right: Expr)
    | NewE(name: string, args: seq<Expr>)
    | CastE(expr: Expr, name: string)
}
