/** The whole front end: tokenize a text and parse the tokens, print an expression
    and read it back. */
module AgexFrontEnd {
  import opened AgexAst
  import opened AgexComplete
  import opened AgexDeclarations
  import opened AgexExprParser
  import opened AgexLexemes
  import opened AgexLexer
  import opened AgexLexPrinted
  import opened AgexParser
  import opened AgexPrinter
  import opened AgexRoundTrip
  import opened AgexStatements
  import opened AgexStmtParser
  import opened AgexSyntax

  // ------------------------------------------------------------ any source

  /** The text is the program `p` by the lexical rules and the grammar alone. */
  ghost predicate IsSource(src: string, p: AgexAst.Program) {
    exists toks :: Lexed(src, toks) && IsProgram(toks, p)
  }

  /** A program or either kind of failure. */
  datatype Report =
    Program(program: AgexAst.Program) | LexFailure(lexError: LexError) | ParseFailure(parseError: ParseError)

  /** What `parse` computes, and that it decides the language: it returns a program
      exactly for the texts that are one, and the one they are. */
  method ParseSource(src: string) returns (r: Report)
    ensures r == Outcome(src)
    ensures forall p :: r == Report.Program(p) <==> IsSource(src, p)
    ensures forall e :: r == LexFailure(e) <==> Unlexable(src, e)
  {
    forall p ensures Outcome(src) == Report.Program(p) <==> IsSource(src, p) { SourceIff(src, p); }
    forall e ensures Outcome(src) == LexFailure(e) <==> Unlexable(src, e) { FailureIff(src, e); }
    var lexed := Tokenize(src);
    if lexed.Failed? {
      return LexFailure(lexed.error);
    }
    EofLast(src);
    var parser := new Parser(lexed.toks);
    var parsed := parser.ParseProgram();
    return if parsed.Ok? then Report.Program(parsed.value) else ParseFailure(parsed.error);
  }

  function Outcome(src: string): Report {
    match Lex(src)
    case Failed(e) => LexFailure(e)
    case Tokens(toks) =>
      match DeclsAt(toks, 0)
      case Got(ds, _) => Report.Program(AgexAst.Program(ds))
      case Lost(e) => ParseFailure(e)
  }

  lemma SourceIff(src: string, p: AgexAst.Program)
    ensures Outcome(src) == Report.Program(p) <==> IsSource(src, p)
  {
    if Lex(src).Tokens? {
      var toks := Lex(src).toks;
      EofLast(src);
      TokensIff(src, toks);
      DeclsIff(toks, 0, p.decls);
    }
    if IsSource(src, p) {
      var toks :| Lexed(src, toks) && IsProgram(toks, p);
      TokensIff(src, toks);
    }
  }

  lemma SourceOf(src: string, toks: seq<Token>, p: AgexAst.Program)
    requires Lex(src) == Tokens(toks) && IsProgram(toks, p)
    ensures IsSource(src, p)
  {
    TokensIff(src, toks);
  }

  /** A text is at most one program. */
  lemma OneProgram(src: string, p: AgexAst.Program, p': AgexAst.Program)
    requires IsSource(src, p) && IsSource(src, p')
    ensures p == p'
  {
    SourceIff(src, p);
    SourceIff(src, p');
  }

  // ----------------------------------------------------------- printed text

  /** Printed text starts with a number, an identifier or a parenthesis. */
  lemma {:induction false} FirstPrinted(e: Expr)
    requires Base(e)
    ensures Toks(e) != []
    ensures StartsExpr(Toks(e)[0].ty)
  {
    match e
    case CallE(callee, _) => FirstPrinted(callee);
    case MethodE(recv, _, _) => FirstPrinted(recv);
    case FieldE(recv, _) => FirstPrinted(recv);
    case ElvisE(left, _) => FirstPrinted(left);
    case _ =>
  }

  /** Character for character: the printed text is tokenized to exactly its tokens,
      the parser reads them as `Norm(e)` and stops at the end of input. */
  lemma PrintedReads(e: Expr)
    requires Base(e)
    ensures Lex(GenExpr(e)) == Tokens(Toks(e) + [EOF_TOKEN])
    ensures ParseLevel(ELVIS, Toks(e) + [EOF_TOKEN]) == Parsed(Norm(e), [EOF_TOKEN])
  {
    LexGen(e, "");
    assert GenExpr(e) + "" == GenExpr(e);
    Derived(e);
    Lift(ELVIS, POSTFIX, Toks(e), Norm(e));
    ParserIffGrammar(Toks(e), Norm(e));
  }

  /** One statement and the end of input. */
  lemma StatementReads(ts: seq<Token>, s: Stmt)
    requires |ts| > 1 && StartsExpr(ts[0].ty) && ts[|ts| - 1] == EOF_TOKEN
    requires PlainStmtAt(ts, 0) == Got(s, |ts| - 1)
    ensures IsProgram(ts, AgexAst.Program([StmtD(s)]))
  {
    StartsNothingElse(ts[0]);
    assert DeclAt(ts, 0) == Got(StmtD(s), |ts| - 1);
    assert DeclsAt(ts, |ts| - 1) == Got([], |ts| - 1);
    DeclsIff(ts, 0, [StmtD(s)]);
  }

  predicate StartsExpr(ty: TokenType) {
    ty.IntLiteral? || ty.FloatLiteral? || ty.Ident? || ty.LParen?
  }

  lemma StartsNothingElse(t: Token)
    requires StartsExpr(t.ty)
    ensures !DeclKeyword(t.ty) && !StmtKeyword(t.ty) && !t.Is(Eof)
  {
  }

  lemma PrintedStatement(e: Expr)
    requires Base(e)
    ensures IsSource(GenExpr(e), AgexAst.Program([StmtD(ExprS(Norm(e)))]))
  {
    hide IsProgram, IsSource, GenExpr, Lex;
    var ts := Toks(e) + [EOF_TOKEN];
    PrintedReads(e);
    ExprParse(ts, e);
    SourceOf(GenExpr(e), ts, AgexAst.Program([StmtD(ExprS(Norm(e)))]));
  }

  lemma ExprParse(ts: seq<Token>, e: Expr)
    requires Base(e) && ts == Toks(e) + [EOF_TOKEN] && ParseLevel(ELVIS, ts) == Parsed(Norm(e), [EOF_TOKEN])
    ensures IsProgram(ts, AgexAst.Program([StmtD(ExprS(Norm(e)))]))
  {
    hide Toks, Norm, Base, ParseLevel, IsProgram;
    FirstPrinted(e);
    assert ts[0] == Toks(e)[0] && ts[0..] == ts;
    assert ExprAt(ts, 0) == Got(Norm(e), |ts| - 1);
    StatementReads(ts, ExprS(Norm(e)));
  }

  // ------------------------------------------------------ printed assignments

  function MarkText(op: AssignOp): string {
    match op
    case AssignPlain => "="
    case AssignPlus => "+="
    case AssignMinus => "-="
    case AssignStar => "*="
    case AssignSlash => "/="
  }

  /** `target op value`, with spaces around the operator. */
  function AssignText(target: Expr, op: AssignOp, value: Expr): string {
    GenExpr(target) + ([' '] + (MarkText(op) + ([' '] + GenExpr(value))))
  }

  lemma LexMark(op: AssignOp, rest: string)
    requires rest != "" && rest[0] == ' '
    ensures Lex(MarkText(op) + rest) == Prepend([Token(AssignMark(op), MarkText(op))], Lex(rest))
  {
    var s, m := MarkText(op) + rest, MarkText(op);
    assert s[..|m|] == m && s[|m|] == ' ';
    MarkStep(op, s);
    LexEmit(s, Token(AssignMark(op), m), m, rest);
  }

  lemma MarkStep(op: AssignOp, s: string)
    requires var m := MarkText(op); |s| > |m| && s[..|m|] == m && s[|m|] == ' '
    ensures NextStep(s) == Emit(Token(AssignMark(op), MarkText(op)), |MarkText(op)|)
  {
    var m := MarkText(op);
    assert s[0] == s[..|m|][0] && (|m| == 2 ==> s[1] == s[..|m|][1]);
    assert NextStep(s) == Symbol(s);
  }

  lemma LexAssign(target: Expr, op: AssignOp, value: Expr)
    requires Base(target) && Base(value)
    ensures Lex(AssignText(target, op, value)) ==
      Tokens(Toks(target) + [Token(AssignMark(op), MarkText(op))] + Toks(value) + [EOF_TOKEN])
  {
    var v := GenExpr(value);
    var t2 := [' '] + v;
    var t1 := MarkText(op) + t2;
    var s := AssignText(target, op, value);
    assert Separate([' '] + t1) && Separate("");
    LexGen(target, [' '] + t1);
    LexSpace(t1);
    LexMark(op, t2);
    LexSpace(v);
    LexGen(value, "");
    assert v + "" == v;
    var mark := [Token(AssignMark(op), MarkText(op))];
    Chain(s, Toks(target), t1, mark, t2);
    Chain(s, Toks(target) + mark, v, Toks(value), "");
  }

  /** Printed tokens in front of the end of input or of an assignment mark. */
  lemma PhraseAt(ts: seq<Token>, i: nat, j: nat, e: Expr)
    requires Base(e) && i <= j < |ts| && ts[i..j] == Toks(e) && (ts[j].Is(Eof) || AssignAt(ts, j))
    ensures ExprAt(ts, i) == Got(Norm(e), j)
  {
    FirstPrinted(e);
    Derived(e);
    Lift(ELVIS, POSTFIX, Toks(e), Norm(e));
    assert forall k: nat :: !Continues(k, ts[j..]);
    ExprIff(ts, i, j, Norm(e));
  }

  lemma PhraseEnds(ts: seq<Token>, n: nat, op: AssignOp)
    requires n < |ts| && Tok(ts, n, AssignMark(op)) && ts[|ts| - 1] == EOF_TOKEN
    ensures AssignAt(ts, n) && ts[|ts| - 1].Is(Eof)
  {
  }

  lemma AssignRead(ts: seq<Token>, n: nat, target: Expr, op: AssignOp, value: Expr)
    requires Base(target) && Base(value) && n + 1 < |ts| && ts[|ts| - 1] == EOF_TOKEN
    requires ts[0..n] == Toks(target) && Tok(ts, n, AssignMark(op)) && ts[n + 1..|ts| - 1] == Toks(value)
    ensures PlainStmtAt(ts, 0) == Got(AssignS(Norm(target), op, Norm(value)), |ts| - 1)
  {
    PhraseEnds(ts, n, op);
    hide *;
    PhraseAt(ts, 0, n, target);
    PhraseAt(ts, n + 1, |ts| - 1, value);
    AssignFound(ts, 0, n, |ts| - 1, Norm(target), op, Norm(value));
  }

  lemma FirstIsPrinted(ts: seq<Token>, n: nat, e: Expr)
    requires Base(e) && n <= |ts| && ts[0..n] == Toks(e)
    ensures n > 0 && StartsExpr(ts[0].ty)
  {
    hide Toks, Base;
    FirstPrinted(e);
    assert ts[0] == ts[0..n][0];
  }

  lemma AssignParse(ts: seq<Token>, n: nat, target: Expr, op: AssignOp, value: Expr)
    requires Base(target) && Base(value) && n + 1 < |ts| && ts[|ts| - 1] == EOF_TOKEN
    requires ts[0..n] == Toks(target) && Tok(ts, n, AssignMark(op)) && ts[n + 1..|ts| - 1] == Toks(value)
    ensures IsProgram(ts, AgexAst.Program([StmtD(AssignS(Norm(target), op, Norm(value)))]))
  {
    hide *;
    FirstIsPrinted(ts, n, target);
    AssignRead(ts, n, target, op, value);
    StatementReads(ts, AssignS(Norm(target), op, Norm(value)));
  }

  /** A printed assignment, with any of the five operators, is read as itself: target
      and value are the trees their texts stand for. */
  lemma AssignmentReads(target: Expr, op: AssignOp, value: Expr)
    requires Base(target) && Base(value)
    ensures IsSource(AssignText(target, op, value), AgexAst.Program([StmtD(AssignS(Norm(target), op, Norm(value)))]))
  {
    hide Toks, Norm, Base, IsProgram, IsSource, AssignText, Lex;
    var a, mark, b := Toks(target), Token(AssignMark(op), MarkText(op)), Toks(value);
    var ts := a + [mark] + b + [EOF_TOKEN];
    LexAssign(target, op, value);
    assert ts[0..|a|] == a && ts[|a|] == mark && ts[|a| + 1..|ts| - 1] == b;
    AssignParse(ts, |a|, target, op, value);
    SourceOf(AssignText(target, op, value), ts, AgexAst.Program([StmtD(AssignS(Norm(target), op, Norm(value)))]));
  }

  /** Target and value come back as they were exactly when both are faithful. */
  lemma AssignmentRoundTrip(target: Expr, op: AssignOp, value: Expr)
    requires Base(target) && Base(value)
    ensures IsSource(AssignText(target, op, value), AgexAst.Program([StmtD(AssignS(target, op, value))]))
      <==> Faithful(target) && Faithful(value)
  {
    AssignmentReads(target, op, value);
    NormFixed(target);
    NormFixed(value);
    var p := AgexAst.Program([StmtD(AssignS(target, op, value))]);
    var q := AgexAst.Program([StmtD(AssignS(Norm(target), op, Norm(value)))]);
    if IsSource(AssignText(target, op, value), p) { OneProgram(AssignText(target, op, value), p, q); }
  }

  /** For every tree of the fragment, printing it and reading the text back gives a
      program of one expression statement; its tree is the printed one exactly when
      the tree is faithful. */
  method PrintAndParse(e: Expr) returns (r: Report)
    requires Base(e)
    ensures r == Report.Program(AgexAst.Program([StmtD(ExprS(Norm(e)))]))
    ensures r == Report.Program(AgexAst.Program([StmtD(ExprS(e))])) <==> Faithful(e)
  {
    PrintedStatement(e);
    NormFixed(e);
    r := ParseSource(GenExpr(e));
  }

  /** The round trip on the level of tokens: the parser returns the printed tree iff
      the tree is faithful. */
  lemma RoundTripExactly(e: Expr)
    requires Base(e)
    ensures Lex(GenExpr(e)).Tokens?
    ensures ParseLevel(ELVIS, Lex(GenExpr(e)).toks) == Parsed(e, [EOF_TOKEN]) <==> Faithful(e)
  {
    PrintedReads(e);
    NormFixed(e);
  }

  /** Distinct faithful trees have distinct texts. */
  lemma PrintInjective(e: Expr, e': Expr)
    requires Base(e) && Base(e') && Faithful(e) && Faithful(e')
    requires GenExpr(e) == GenExpr(e')
    ensures e == e'
  {
    RoundTripExactly(e);
    RoundTripExactly(e');
  }

  /** A call of a field is not read back: `a.f()` is the method call, for every
      receiver and name, although both trees print as the same text. */
  lemma FieldCallReadsAsMethod(recv: Expr, name: string, args: seq<Expr>)
    requires Base(recv) && Plain(name) && BaseAll(args) && !Rewritten(name)
    ensures GenExpr(CallE(FieldE(recv, name), args)) == GenExpr(MethodE(recv, name, args))
    ensures Norm(CallE(FieldE(recv, name), args)) == MethodE(Norm(recv), name, NormAll(args))
    ensures !Faithful(CallE(FieldE(recv, name), args))
  {
    FieldCallText(recv, name, args);
    FieldCallNorm(recv, name, args);
    FieldCallUnfaithful(recv, name, args);
  }

  lemma FieldCallNorm(recv: Expr, name: string, args: seq<Expr>)
    requires !Rewritten(name)
    ensures Norm(CallE(FieldE(recv, name), args)) == MethodE(Norm(recv), name, NormAll(args))
  {
  }

  lemma FieldCallUnfaithful(recv: Expr, name: string, args: seq<Expr>)
    ensures !Faithful(CallE(FieldE(recv, name), args))
  {
  }

  lemma FieldCallText(recv: Expr, name: string, args: seq<Expr>)
    requires Base(recv) && Plain(name) && BaseAll(args) && !Rewritten(name)
    ensures GenExpr(CallE(FieldE(recv, name), args)) == GenExpr(MethodE(recv, name, args))
  {
    FieldText(recv, name);
    CalledField(recv, name, args);
    CallText(CallE(FieldE(recv, name), args));
    MethodText(recv, name, args);
  }

  lemma FieldText(recv: Expr, name: string)
    requires !Rewritten(name)
    ensures GenExpr(FieldE(recv, name)) == GenExpr(recv) + "." + name
  {
  }

  lemma MethodText(recv: Expr, name: string, args: seq<Expr>)
    requires !Rewritten(name)
    ensures GenExpr(MethodE(recv, name, args)) == GenExpr(recv) + "." + name + "(" + GenArgs(args) + ")"
  {
  }

  lemma CalledField(recv: Expr, name: string, args: seq<Expr>)
    requires Base(recv) && Plain(name) && BaseAll(args)
    ensures Base(CallE(FieldE(recv, name), args))
  {
  }
}
