/** The parser reads exactly the types, statements, declarations and programs of the
    grammar. */
module AgexStatements {
  import opened AgexAst
  import opened AgexExprParser
  import opened AgexStmtParser
  import opened AgexGrammar
  import opened AgexComplete
  import opened AgexSyntax
  import opened Wrappers

  // ------------------------------------------------------------ expressions

  lemma Between(ts: seq<Token>, i: nat, j: nat)
    requires i <= j <= |ts|
    ensures Suffix(ts[j..], ts[i..]) && Used(ts[i..], ts[j..]) == ts[i..j]
  {
  }

  lemma ExprIff(ts: seq<Token>, i: nat, j: nat, e: Expr)
    ensures ExprAt(ts, i) == Got(e, j) <==> IsExpr(ts, i, j, e)
  {
    if i < j <= |ts| {
      ReadsIff(ts[i..], e, ts[j..]);
      Between(ts, i, j);
    }
    if ExprAt(ts, i) == Got(e, j) {
      SoundLevel(ELVIS, ts[i..]);
      assert ParseLevel(ELVIS, ts[i..]).rest == ts[j..];
    }
  }

  lemma ArgsIff(ts: seq<Token>, i: nat, j: nat, args: seq<Expr>)
    ensures ArgsAt(ts, i) == Got(args, j) <==> IsArgs(ts, i, j, args)
  {
    if i < j <= |ts| {
      ArgumentsIff(ts[i..], args, ts[j..]);
      Between(ts, i, j);
    }
    if ArgsAt(ts, i) == Got(args, j) {
      SoundArgList(ts[i..]);
      assert ParseArgs(ts[i..]).rest == ts[j..];
    }
  }

  // ------------------------------------------------------------------ types

  lemma {:induction false} TypeIff(ts: seq<Token>, i: nat, j: nat, t: TypeNode)
    ensures TypeAt(ts, i) == Got(t, j) <==> IsType(ts, i, j, t)
    decreases |ts| - i, 1
  {
    if m: nat :| IsBareType(ts, i, m, t) && IsMark(ts, m, j, t.nullable) {
      BareTypeFound(ts, i, m, t);
    }
    var r := BareTypeAt(ts, i);
    if r.Got? {
      BareTypeRight(ts, i);
      Unmarked(ts, i, r.next, r.value, Nullable(r.value));
    }
  }

  /** The mark is not part of the bare type. */
  lemma Unmarked(ts: seq<Token>, i: nat, j: nat, t: TypeNode, u: TypeNode)
    requires u == Nullable(t) && IsBareType(ts, i, j, t)
    ensures IsBareType(ts, i, j, u)
  {
  }

  lemma {:induction false} BareTypeRight(ts: seq<Token>, i: nat)
    requires BareTypeAt(ts, i).Got?
    ensures var (t, j) := BareTypeAt(ts, i).Extract(); !t.nullable && IsBareType(ts, i, j, t)
    decreases |ts| - i, 0
  {
    var r := BareTypeAt(ts, i);
    if Tok(ts, i, Star) {
      TypeIff(ts, i + 1, r.next, r.value.inner);
    } else if Tok(ts, i + 1, LBracket) {
      TypesIff(ts, i + 2, r.next - 1, r.value.args);
    }
  }

  lemma {:induction false} BareTypeFound(ts: seq<Token>, i: nat, j: nat, t: TypeNode)
    requires IsBareType(ts, i, j, t)
    ensures BareTypeAt(ts, i) == Got(t.(nullable := false), j)
    decreases |ts| - i, 0
  {
    match t
    case PointerType(inner, _) => TypeIff(ts, i + 1, j, inner);
    case GenericType(_, args, _) => TypesIff(ts, i + 2, j - 1, args);
    case _ =>
  }

  lemma {:induction false} TypesIff(ts: seq<Token>, i: nat, j: nat, args: seq<TypeNode>)
    ensures TypesAt(ts, i) == Got(args, j) <==> IsTypes(ts, i, j, args)
    decreases |ts| - i, 2
  {
    if args != [] {
      if m: nat :| IsType(ts, i, m, args[0]) && IsMoreTypes(ts, m, j, args[1..]) {
        TypeIff(ts, i, m, args[0]);
        MoreTypesIff(ts, m, j, args[1..]);
        assert [args[0]] + args[1..] == args;
      }
      if TypesAt(ts, i) == Got(args, j) {
        var first := TypeAt(ts, i);
        TypeIff(ts, i, first.next, first.value);
        MoreTypesIff(ts, first.next, j, args[1..]);
      }
    }
  }

  lemma {:induction false} MoreTypesIff(ts: seq<Token>, i: nat, j: nat, args: seq<TypeNode>)
    ensures MoreTypesAt(ts, i) == Got(args, j) <==> IsMoreTypes(ts, i, j, args)
    decreases |ts| - i, 2
  {
    if args != [] && Tok(ts, i, Comma) {
      if m: nat :| IsType(ts, i + 1, m, args[0]) && IsMoreTypes(ts, m, j, args[1..]) {
        TypeIff(ts, i + 1, m, args[0]);
        MoreTypesIff(ts, m, j, args[1..]);
        assert [args[0]] + args[1..] == args;
      }
      if MoreTypesAt(ts, i) == Got(args, j) {
        var first := TypeAt(ts, i + 1);
        TypeIff(ts, i + 1, first.next, first.value);
        MoreTypesIff(ts, first.next, j, args[1..]);
      }
    }
  }

  // ------------------------------------------------- what names are given

  lemma AnnotationIff(ts: seq<Token>, i: nat, j: nat, mark: TokenType, t: TypeNode)
    ensures AnnotationAt(ts, i, mark) == Got(t, j) <==> IsAnnotation(ts, i, j, mark, t)
  {
    TypeIff(ts, i + 1, j, t);
  }

  lemma ValueIff(ts: seq<Token>, i: nat, j: nat, init: Option<Expr>)
    ensures ValueAt(ts, i) == Got(init, j) <==> IsValue(ts, i, j, init)
  {
    if init.Some? { ExprIff(ts, i + 1, j, init.value); }
  }

  lemma BindingIff(ts: seq<Token>, i: nat, j: nat, t: TypeNode, init: Option<Expr>)
    ensures BindingAt(ts, i) == Got((t, init), j) <==> IsBinding(ts, i, j, t, init)
  {
    if m: nat :| IsAnnotation(ts, i, m, Colon, t) && IsValue(ts, m, j, init) {
      AnnotationIff(ts, i, m, Colon, t);
      ValueIff(ts, m, j, init);
    }
    if BindingAt(ts, i) == Got((t, init), j) {
      var m := AnnotationAt(ts, i, Colon).next;
      AnnotationIff(ts, i, m, Colon, t);
      ValueIff(ts, m, j, init);
    }
  }

  lemma ParamFound(ts: seq<Token>, i: nat, m: nat, j: nat, p: Param)
    requires var n := if p.mutable then i + 1 else i;
      && p.mutable == Tok(ts, i, Var) && Name(ts, n, p.name) && Tok(ts, n + 1, Colon)
      && TypeAt(ts, n + 2) == Got(p.ty, m) && ValueAt(ts, m) == Got(p.default, j)
    ensures ParamAt(ts, i) == Got(p, j)
  {
  }

  lemma ParamParts(ts: seq<Token>, i: nat, j: nat, p: Param) returns (m: nat)
    requires ParamAt(ts, i) == Got(p, j)
    ensures var n := if p.mutable then i + 1 else i;
      && p.mutable == Tok(ts, i, Var) && Name(ts, n, p.name) && Tok(ts, n + 1, Colon)
      && TypeAt(ts, n + 2) == Got(p.ty, m) && ValueAt(ts, m) == Got(p.default, j)
  {
    m := TypeAt(ts, if p.mutable then i + 3 else i + 2).next;
  }

  lemma ParamIff(ts: seq<Token>, i: nat, j: nat, p: Param)
    ensures ParamAt(ts, i) == Got(p, j) <==> IsParam(ts, i, j, p)
  {
    hide TypeAt, ValueAt, IsType, IsValue;
    var n := if p.mutable then i + 1 else i;
    if IsParam(ts, i, j, p) {
      var m: nat :| IsType(ts, n + 2, m, p.ty) && IsValue(ts, m, j, p.default);
      TypeIff(ts, n + 2, m, p.ty);
      ValueIff(ts, m, j, p.default);
      ParamFound(ts, i, m, j, p);
    }
    if ParamAt(ts, i) == Got(p, j) {
      var m := ParamParts(ts, i, j, p);
      TypeIff(ts, n + 2, m, p.ty);
      ValueIff(ts, m, j, p.default);
    }
  }

  lemma ParamsFound(ts: seq<Token>, i: nat, m: nat, j: nat, ps: seq<Param>)
    requires ps != [] && !Tok(ts, i, RParen)
    requires ParamAt(ts, i) == Got(ps[0], m) && MoreParamsAt(ts, m) == Got(ps[1..], j)
    ensures ParamsAt(ts, i) == Got(ps, j)
  {
    assert [ps[0]] + ps[1..] == ps;
  }

  lemma ParamsParts(ts: seq<Token>, i: nat, j: nat, ps: seq<Param>) returns (m: nat)
    requires ps != [] && ParamsAt(ts, i) == Got(ps, j)
    ensures !Tok(ts, i, RParen) && ParamAt(ts, i) == Got(ps[0], m) && MoreParamsAt(ts, m) == Got(ps[1..], j)
  {
    m := ParamAt(ts, i).next;
  }

  lemma {:induction false} ParamsIff(ts: seq<Token>, i: nat, j: nat, ps: seq<Param>)
    ensures ParamsAt(ts, i) == Got(ps, j) <==> IsParams(ts, i, j, ps)
    decreases |ps|, 0
  {
    if ps != [] {
      if IsParams(ts, i, j, ps) {
        var m: nat :| IsParam(ts, i, m, ps[0]) && IsMoreParams(ts, m, j, ps[1..]);
        ParamIff(ts, i, m, ps[0]);
        MoreParamsIff(ts, m, j, ps[1..]);
        ParamsFound(ts, i, m, j, ps);
      }
      if ParamsAt(ts, i) == Got(ps, j) {
        var m := ParamsParts(ts, i, j, ps);
        ParamIff(ts, i, m, ps[0]);
        MoreParamsIff(ts, m, j, ps[1..]);
      }
    }
  }

  lemma {:induction false} MoreParamsIff(ts: seq<Token>, i: nat, j: nat, ps: seq<Param>)
    ensures MoreParamsAt(ts, i) == Got(ps, j) <==> IsMoreParams(ts, i, j, ps)
    decreases |ps|, 1
  {
    if Tok(ts, i, Comma) { ParamsIff(ts, i + 1, j, ps); }
  }

  lemma SignatureFound(ts: seq<Token>, i: nat, m: nat, j: nat, ps: seq<Param>, t: TypeNode)
    requires Tok(ts, i, LParen) && ParamsAt(ts, i + 1) == Got(ps, m) && Tok(ts, m, RParen)
    requires AnnotationAt(ts, m + 1, Arrow) == Got(t, j)
    ensures SignatureAt(ts, i) == Got((ps, t), j)
  {
  }

  lemma SignatureParts(ts: seq<Token>, i: nat, j: nat, ps: seq<Param>, t: TypeNode) returns (m: nat)
    requires SignatureAt(ts, i) == Got((ps, t), j)
    ensures Tok(ts, i, LParen) && ParamsAt(ts, i + 1) == Got(ps, m) && Tok(ts, m, RParen)
    ensures AnnotationAt(ts, m + 1, Arrow) == Got(t, j)
  {
    m := ParamsAt(ts, i + 1).next;
  }

  lemma SignatureHead(ts: seq<Token>, i: nat, j: nat, ps: seq<Param>, t: TypeNode) returns (m: nat)
    requires IsSignature(ts, i, j, ps, t)
    ensures Tok(ts, i, LParen) && ParamsAt(ts, i + 1) == Got(ps, m) && Tok(ts, m, RParen)
    ensures AnnotationAt(ts, m + 1, Arrow) == Got(t, j)
  {
    m :| IsParams(ts, i + 1, m, ps) && Tok(ts, m, RParen) && IsAnnotation(ts, m + 1, j, Arrow, t);
    ParamsIff(ts, i + 1, m, ps);
    AnnotationIff(ts, m + 1, j, Arrow, t);
  }

  lemma SignatureIff(ts: seq<Token>, i: nat, j: nat, ps: seq<Param>, t: TypeNode)
    ensures SignatureAt(ts, i) == Got((ps, t), j) <==> IsSignature(ts, i, j, ps, t)
  {
    if IsSignature(ts, i, j, ps, t) {
      var m := SignatureHead(ts, i, j, ps, t);
      SignatureFound(ts, i, m, j, ps, t);
    }
    if SignatureAt(ts, i) == Got((ps, t), j) {
      var m := SignatureParts(ts, i, j, ps, t);
      ParamsIff(ts, i + 1, m, ps);
      AnnotationIff(ts, m + 1, j, Arrow, t);
    }
  }

  // ------------------------------------------------------ single statements

  lemma AssignMarks(ts: seq<Token>, i: nat, op: AssignOp)
    ensures Tok(ts, i, AssignMark(op)) <==> AssignOpOf(TokenAt(ts, i).ty) == Some(op)
    ensures AssignAt(ts, i) <==> AssignOpOf(TokenAt(ts, i).ty).Some?
  {
  }

  lemma PlainStmtIff(ts: seq<Token>, i: nat, j: nat, s: Stmt)
    ensures PlainStmtAt(ts, i) == Got(s, j) <==> IsPlainStmt(ts, i, j, s)
  {
    match s
    case ExprS(e) =>
      ExprIff(ts, i, j, e);
      AssignMarks(ts, j, AssignPlain);
    case AssignS(target, op, value) =>
      AssignIff(ts, i, j, target, op, value);
    case _ =>
  }

  lemma AssignFound(ts: seq<Token>, i: nat, m: nat, j: nat, target: Expr, op: AssignOp, value: Expr)
    requires ExprAt(ts, i) == Got(target, m) && Tok(ts, m, AssignMark(op)) && ExprAt(ts, m + 1) == Got(value, j)
    ensures PlainStmtAt(ts, i) == Got(AssignS(target, op, value), j)
  {
    AssignMarks(ts, m, op);
  }

  lemma AssignParts(ts: seq<Token>, i: nat, j: nat, target: Expr, op: AssignOp, value: Expr) returns (m: nat)
    requires PlainStmtAt(ts, i) == Got(AssignS(target, op, value), j)
    ensures ExprAt(ts, i) == Got(target, m) && Tok(ts, m, AssignMark(op)) && ExprAt(ts, m + 1) == Got(value, j)
  {
    m := ExprAt(ts, i).next;
    AssignMarks(ts, m, op);
  }

  lemma AssignRight(ts: seq<Token>, i: nat, m: nat, j: nat, target: Expr, op: AssignOp, value: Expr)
    requires ExprAt(ts, i) == Got(target, m) && Tok(ts, m, AssignMark(op)) && ExprAt(ts, m + 1) == Got(value, j)
    ensures IsAssign(ts, i, j, target, op, value)
  {
    ExprIff(ts, i, m, target);
    ExprIff(ts, m + 1, j, value);
  }

  lemma AssignHead(ts: seq<Token>, i: nat, j: nat, target: Expr, op: AssignOp, value: Expr) returns (m: nat)
    requires IsAssign(ts, i, j, target, op, value)
    ensures ExprAt(ts, i) == Got(target, m) && Tok(ts, m, AssignMark(op)) && ExprAt(ts, m + 1) == Got(value, j)
  {
    m :| IsExpr(ts, i, m, target) && Tok(ts, m, AssignMark(op)) && IsExpr(ts, m + 1, j, value);
    ExprIff(ts, i, m, target);
    ExprIff(ts, m + 1, j, value);
  }

  lemma AssignIff(ts: seq<Token>, i: nat, j: nat, target: Expr, op: AssignOp, value: Expr)
    ensures PlainStmtAt(ts, i) == Got(AssignS(target, op, value), j) <==> IsAssign(ts, i, j, target, op, value)
  {
    if IsAssign(ts, i, j, target, op, value) {
      var m := AssignHead(ts, i, j, target, op, value);
      AssignFound(ts, i, m, j, target, op, value);
    }
    if PlainStmtAt(ts, i) == Got(AssignS(target, op, value), j) {
      var m := AssignParts(ts, i, j, target, op, value);
      AssignRight(ts, i, m, j, target, op, value);
    }
  }

  lemma LetIff(ts: seq<Token>, i: nat, j: nat, name: string, t: TypeNode, init: Option<Expr>)
    ensures LetAt(ts, i) == Got(LetS(name, t, init), j) <==> IsStmt(ts, i, j, LetS(name, t, init))
  {
    BindingIff(ts, i + 2, j, t, init);
  }

  lemma ConstIff(ts: seq<Token>, i: nat, j: nat, name: string, t: TypeNode, init: Option<Expr>)
    ensures ConstAt(ts, i) == Got(ConstS(name, t, init), j) <==> IsStmt(ts, i, j, ConstS(name, t, init))
  {
    BindingIff(ts, i + 2, j, t, init);
  }

  lemma VarIff(ts: seq<Token>, i: nat, j: nat, name: string, t: TypeNode, init: Option<Expr>)
    ensures VarAt(ts, i) == Got(VarS(name, t, init), j) <==> IsStmt(ts, i, j, VarS(name, t, init))
  {
    BindingIff(ts, i + 2, j, t, init);
  }

  lemma ReturnIff(ts: seq<Token>, i: nat, j: nat, result: Option<Expr>)
    ensures ReturnAt(ts, i) == Got(ReturnS(result), j) <==> IsReturn(ts, i, j, result)
  {
    if result.Some? { ExprIff(ts, i + 1, j, result.value); }
  }

  lemma PrintIff(ts: seq<Token>, i: nat, j: nat, args: seq<Expr>)
    ensures PrintAt(ts, i) == Got(PrintS(args), j) <==> IsStmt(ts, i, j, PrintS(args))
  {
    ArgsIff(ts, i + 2, j, args);
  }

  // --------------------------------------------------------------- patterns

  lemma {:induction false} NamesIff(ts: seq<Token>, i: nat, j: nat, mark: TokenType, names: seq<string>)
    ensures NamesAt(ts, i, mark) == Got(names, j) <==> IsNames(ts, i, j, mark, names)
    decreases |ts| - i
  {
    if NamesAt(ts, i, mark) == Got(names, j) {
      NamesRight(ts, i, j, mark, names);
    }
    if IsNames(ts, i, j, mark, names) {
      NamesFound(ts, i, j, mark, names);
    }
  }

  lemma {:induction false} NamesFound(ts: seq<Token>, i: nat, j: nat, mark: TokenType, names: seq<string>)
    requires IsNames(ts, i, j, mark, names)
    ensures NamesAt(ts, i, mark) == Got(names, j)
    decreases |ts| - i, 0
  {
    assert ts[i + 2 * 0] == Token(Ident, names[0]);
    if |names| > 1 {
      NamesTail(ts, i, j, mark, names);
      NamesIff(ts, i + 2, j, mark, names[1..]);
    }
    NamesStep(ts, i, j, mark, names[0], names[1..]);
    assert names == [names[0]] + names[1..];
  }

  lemma NamesStep(ts: seq<Token>, i: nat, j: nat, mark: TokenType, name: string, more: seq<string>)
    requires Name(ts, i, name)
    requires if Tok(ts, i + 1, mark) then NamesAt(ts, i + 2, mark) == Got(more, j) else more == [] && j == i + 1
    ensures NamesAt(ts, i, mark) == Got([name] + more, j)
  {
    assert more == [] ==> [name] + more == [name];
  }

  lemma NamesParts(ts: seq<Token>, i: nat, j: nat, mark: TokenType, names: seq<string>)
    requires NamesAt(ts, i, mark) == Got(names, j)
    ensures names != [] && Name(ts, i, names[0])
    ensures if Tok(ts, i + 1, mark) then names[1..] != [] && NamesAt(ts, i + 2, mark) == Got(names[1..], j)
            else |names| == 1 && j == i + 1
  {
  }

  lemma {:induction false} NamesRight(ts: seq<Token>, i: nat, j: nat, mark: TokenType, names: seq<string>)
    requires NamesAt(ts, i, mark) == Got(names, j)
    ensures IsNames(ts, i, j, mark, names)
    decreases |ts| - i, 0
  {
    NamesParts(ts, i, j, mark, names);
    if Tok(ts, i + 1, mark) {
      NamesIff(ts, i + 2, j, mark, names[1..]);
      LongerNames(ts, i, j, mark, names);
    } else {
      OneName(ts, i, mark, names);
    }
  }

  lemma OneName(ts: seq<Token>, i: nat, mark: TokenType, names: seq<string>)
    requires |names| == 1 && Name(ts, i, names[0]) && !Tok(ts, i + 1, mark)
    ensures IsNames(ts, i, i + 1, mark, names)
  {
  }

  lemma NamesTail(ts: seq<Token>, i: nat, j: nat, mark: TokenType, names: seq<string>)
    requires |names| > 1 && IsNames(ts, i, j, mark, names)
    ensures Tok(ts, i + 1, mark) && IsNames(ts, i + 2, j, mark, names[1..])
  {
    forall k | 0 <= k < |names| - 1 ensures ts[i + 2 + 2 * k] == Token(Ident, names[1..][k]) {
      assert ts[i + 2 * (k + 1)] == Token(Ident, names[k + 1]);
    }
    forall k | 0 < k < |names| - 1 ensures ts[i + 2 + 2 * k - 1].Is(mark) {
      assert ts[i + 2 * (k + 1) - 1].Is(mark);
    }
    assert ts[i + 2 * 1 - 1].Is(mark);
  }

  lemma LongerNames(ts: seq<Token>, i: nat, j: nat, mark: TokenType, names: seq<string>)
    requires |names| > 1 && Tok(ts, i + 1, mark) && ts[i] == Token(Ident, names[0])
    requires IsNames(ts, i + 2, j, mark, names[1..])
    ensures IsNames(ts, i, j, mark, names)
  {
    forall k | 0 <= k < |names| ensures ts[i + 2 * k] == Token(Ident, names[k]) {
      if k > 0 { assert ts[i + 2 + 2 * (k - 1)] == Token(Ident, names[1..][k - 1]); }
    }
    forall k | 0 < k < |names| ensures ts[i + 2 * k - 1].Is(mark) {
      if k > 1 { assert ts[i + 2 + 2 * (k - 1) - 1].Is(mark); }
    }
  }

  lemma BoundIff(ts: seq<Token>, i: nat, j: nat, names: seq<string>)
    ensures BoundAt(ts, i) == Got(names, j) <==> IsBound(ts, i, j, names)
  {
    if j > i { NamesIff(ts, i + 1, j - 1, Comma, names); }
  }

  /** Joining from the left and from the right. */
  lemma {:induction false} DotsArePath(names: seq<string>)
    requires names != []
    ensures Dots(names) == Path(names)
    decreases |names|
  {
    var n := |names| - 1;
    if n > 0 {
      DotsArePath(names[..n]);
      PathEnd(names[..n], names[n]);
      assert names == names[..n] + [names[n]];
    }
  }

  lemma {:induction false} PathEnd(names: seq<string>, last: string)
    requires names != []
    ensures Path(names + [last]) == Path(names) + "." + last
  {
    if |names| > 1 {
      PathEnd(names[1..], last);
      assert (names + [last])[1..] == names[1..] + [last];
    }
  }

  lemma PatternIff(ts: seq<Token>, i: nat, j: nat, pattern: string, names: seq<string>)
    ensures PatternAt(ts, i) == Got((pattern, names), j) <==> IsPattern(ts, i, j, pattern, names)
  {
    if Tok(ts, i, Ident) {
      if IsPattern(ts, i, j, pattern, names) {
        var m: nat, path :| IsNames(ts, i, m, Dot, path) && pattern == Path(path) && IsBound(ts, m, j, names);
        PathPattern(ts, i, m, j, path, names);
      }
      if PatternAt(ts, i) == Got((pattern, names), j) {
        var path := NamesAt(ts, i, Dot);
        PathPattern(ts, i, path.next, j, path.value, names);
        DotsArePath(path.value);
      }
    }
  }

  lemma PathPattern(ts: seq<Token>, i: nat, m: nat, j: nat, path: seq<string>, names: seq<string>)
    requires Tok(ts, i, Ident) && (NamesAt(ts, i, Dot) == Got(path, m) || IsNames(ts, i, m, Dot, path))
    ensures NamesAt(ts, i, Dot) == Got(path, m) && IsNames(ts, i, m, Dot, path)
    ensures PatternAt(ts, i) == Got((Path(path), names), j) <==> IsBound(ts, m, j, names)
  {
    NamesIff(ts, i, m, Dot, path);
    DotsArePath(path);
    BoundIff(ts, m, j, names);
  }

  // ------------------------------------------------------ nested statements

  lemma {:induction false} BlockIff(ts: seq<Token>, i: nat, j: nat, body: seq<Stmt>)
    ensures BlockAt(ts, i) == Got(body, j) <==> IsBlock(ts, i, j, body)
    decreases |ts| - i, 0
  {
    hide StmtsAt, BlockAt, IsStmts;
    BlockParts(ts, i, j, body);
    if j > i + 1 && Tok(ts, i, LBrace) { StmtsIff(ts, i + 1, j - 1, body); }
  }

  lemma BlockParts(ts: seq<Token>, i: nat, j: nat, body: seq<Stmt>)
    ensures BlockAt(ts, i) == Got(body, j) <==>
      Tok(ts, i, LBrace) && j > i + 1 && StmtsAt(ts, i + 1) == Got(body, j - 1) && Tok(ts, j - 1, RBrace)
  {
    hide StmtsAt;
  }

  lemma {:induction false} StmtsIff(ts: seq<Token>, i: nat, j: nat, body: seq<Stmt>)
    ensures StmtsAt(ts, i) == Got(body, j) <==> IsStmts(ts, i, j, body)
    decreases |ts| - i, 4
  {
    if body != [] && !EndOfStmts(ts, i) {
      if IsStmts(ts, i, j, body) {
        var m := FirstStmt(ts, i, j, body);
        StmtIff(ts, i, m, body[0]);
        StmtsIff(ts, m, j, body[1..]);
        StmtsFound(ts, i, m, j, body);
      }
      if StmtsAt(ts, i) == Got(body, j) {
        var m := StmtsParts(ts, i, j, body);
        StmtIff(ts, i, m, body[0]);
        StmtsIff(ts, m, j, body[1..]);
      }
    }
  }

  lemma FirstStmt(ts: seq<Token>, i: nat, j: nat, body: seq<Stmt>) returns (m: nat)
    requires body != [] && IsStmts(ts, i, j, body)
    ensures i < m <= |ts| && IsStmt(ts, i, m, body[0]) && IsStmts(ts, m, j, body[1..])
  {
    m :| i < m <= |ts| && IsStmt(ts, i, m, body[0]) && IsStmts(ts, m, j, body[1..]);
  }

  lemma StmtsFound(ts: seq<Token>, i: nat, m: nat, j: nat, body: seq<Stmt>)
    requires body != [] && !AtListEnd(ts, i)
    requires StmtAt(ts, i) == Got(body[0], m) && StmtsAt(ts, m) == Got(body[1..], j)
    ensures StmtsAt(ts, i) == Got(body, j)
  {
    assert [body[0]] + body[1..] == body;
  }

  lemma StmtsParts(ts: seq<Token>, i: nat, j: nat, body: seq<Stmt>) returns (m: nat)
    requires body != [] && StmtsAt(ts, i) == Got(body, j)
    ensures StmtAt(ts, i) == Got(body[0], m) && StmtsAt(ts, m) == Got(body[1..], j)
  {
    m := StmtAt(ts, i).next;
  }

  lemma {:induction false} StmtIff(ts: seq<Token>, i: nat, j: nat, s: Stmt)
    ensures StmtAt(ts, i) == Got(s, j) <==> IsStmt(ts, i, j, s)
    decreases |ts| - i, 3
  {
    if StmtAt(ts, i) == Got(s, j) { StartsRead(ts, i, j, s); }
    if IsStmt(ts, i, j, s) { Starts(ts, i, j, s); }
    if StartsAs(ts, i, s) { StmtCase(ts, i, j, s); }
  }

  lemma {:induction false} StmtCase(ts: seq<Token>, i: nat, j: nat, s: Stmt)
    requires StartsAs(ts, i, s)
    ensures StmtAt(ts, i) == Got(s, j) <==> IsStmt(ts, i, j, s)
    decreases |ts| - i, 2
  {
    DispatchNested(ts, i, s);
    if s.IfS? {
      IfIff(ts, i, j, s);
    } else if s.ForS? {
      ForIff(ts, i, j, s);
    } else if s.MatchS? {
      MatchIff(ts, i, j, s);
    } else if s.UnsafeS? {
      UnsafeIff(ts, i, j, s);
    } else {
      SimpleCase(ts, i, j, s);
    }
  }

  lemma SimpleCase(ts: seq<Token>, i: nat, j: nat, s: Stmt)
    requires StartsAs(ts, i, s) && !s.IfS? && !s.ForS? && !s.MatchS? && !s.UnsafeS?
    ensures StmtAt(ts, i) == Got(s, j) <==> IsStmt(ts, i, j, s)
  {
    DispatchSimple(ts, i, s);
    match s
    case LetS(name, t, init) => LetIff(ts, i, j, name, t, init);
    case ConstS(name, t, init) => ConstIff(ts, i, j, name, t, init);
    case VarS(name, t, init) => VarIff(ts, i, j, name, t, init);
    case ReturnS(result) => ReturnIff(ts, i, j, result);
    case PrintS(args) => PrintIff(ts, i, j, args);
    case _ => PlainStmtIff(ts, i, j, s);
  }

  /** The token at `i` decides which statement it is. */
  lemma DispatchSimple(ts: seq<Token>, i: nat, s: Stmt)
    requires StartsAs(ts, i, s) && !s.IfS? && !s.ForS? && !s.MatchS? && !s.UnsafeS?
    ensures StmtAt(ts, i) == match s
      case LetS(_, _, _) => LetAt(ts, i)
      case ConstS(_, _, _) => ConstAt(ts, i)
      case VarS(_, _, _) => VarAt(ts, i)
      case ReturnS(_) => ReturnAt(ts, i)
      case PrintS(_) => PrintAt(ts, i)
      case _ => PlainStmtAt(ts, i)
  {
    hide LetAt, ConstAt, VarAt, ReturnAt, PrintAt, PlainStmtAt, IfAt, ForAt, MatchAt, UnsafeAt;
  }

  lemma DispatchNested(ts: seq<Token>, i: nat, s: Stmt)
    requires StartsAs(ts, i, s)
    ensures s.IfS? ==> StmtAt(ts, i) == IfAt(ts, i)
    ensures s.ForS? ==> StmtAt(ts, i) == ForAt(ts, i)
    ensures s.MatchS? ==> StmtAt(ts, i) == MatchAt(ts, i)
    ensures s.UnsafeS? ==> StmtAt(ts, i) == UnsafeAt(ts, i)
  {
    hide LetAt, ConstAt, VarAt, ReturnAt, PrintAt, PlainStmtAt, IfAt, ForAt, MatchAt, UnsafeAt;
  }

  predicate StartsAs(ts: seq<Token>, i: nat, s: Stmt) {
    match s
    case LetS(_, _, _) => Tok(ts, i, Let)
    case ConstS(_, _, _) => Tok(ts, i, Const)
    case VarS(_, _, _) => Tok(ts, i, Var)
    case ReturnS(_) => Tok(ts, i, Return)
    case IfS(_, _, _) => Tok(ts, i, If)
    case ForS(_, _, _) => Tok(ts, i, For)
    case MatchS(_, _) => Tok(ts, i, Match)
    case PrintS(_) => Tok(ts, i, Print)
    case UnsafeS(_) => Tok(ts, i, Unsafe)
    case _ => i < |ts| && !StmtKeyword(ts[i].ty)
  }

  lemma Starts(ts: seq<Token>, i: nat, j: nat, s: Stmt)
    requires IsStmt(ts, i, j, s)
    ensures StartsAs(ts, i, s)
  {
  }

  lemma StartsRead(ts: seq<Token>, i: nat, j: nat, s: Stmt)
    requires StmtAt(ts, i) == Got(s, j)
    ensures StartsAs(ts, i, s)
  {
    hide LetAt, ConstAt, VarAt, ReturnAt, PrintAt, PlainStmtAt, IfAt, ForAt, MatchAt, UnsafeAt;
  }

  lemma {:induction false} UnsafeIff(ts: seq<Token>, i: nat, j: nat, s: Stmt)
    requires s.UnsafeS?
    ensures UnsafeAt(ts, i) == Got(s, j) <==> IsStmt(ts, i, j, s)
    decreases |ts| - i, 1
  {
    if Tok(ts, i, Unsafe) { BlockIff(ts, i + 1, j, s.body); }
  }

  lemma {:induction false} IfIff(ts: seq<Token>, i: nat, j: nat, s: Stmt)
    requires s.IfS?
    ensures IfAt(ts, i) == Got(s, j) <==> IsIf(ts, i, j, s)
    decreases |ts| - i, 1
  {
    if Tok(ts, i, If) {
      if IsIf(ts, i, j, s) {
        var m, n := IfHead(ts, i, j, s);
        ExprIff(ts, i + 1, m, s.cond);
        BlockIff(ts, m, n, s.thn);
        ElseIff(ts, n, j, s.els);
        IfFound(ts, i, m, n, j, s);
      }
      if IfAt(ts, i) == Got(s, j) {
        var m, n := IfParts(ts, i, j, s);
        ExprIff(ts, i + 1, m, s.cond);
        BlockIff(ts, m, n, s.thn);
        ElseIff(ts, n, j, s.els);
      }
    }
  }

  lemma IfHead(ts: seq<Token>, i: nat, j: nat, s: Stmt) returns (m: nat, n: nat)
    requires s.IfS? && IsIf(ts, i, j, s)
    ensures i < m < n && IsExpr(ts, i + 1, m, s.cond) && IsBlock(ts, m, n, s.thn) && IsElse(ts, n, j, s.els)
  {
    m, n :| i < m < n && IsExpr(ts, i + 1, m, s.cond) && IsBlock(ts, m, n, s.thn) && IsElse(ts, n, j, s.els);
  }

  lemma IfFound(ts: seq<Token>, i: nat, m: nat, n: nat, j: nat, s: Stmt)
    requires s.IfS? && Tok(ts, i, If) && ExprAt(ts, i + 1) == Got(s.cond, m)
    requires BlockAt(ts, m) == Got(s.thn, n) && ElseAt(ts, n) == Got(s.els, j)
    ensures IfAt(ts, i) == Got(s, j)
  {
  }

  lemma IfParts(ts: seq<Token>, i: nat, j: nat, s: Stmt) returns (m: nat, n: nat)
    requires s.IfS? && IfAt(ts, i) == Got(s, j)
    ensures i + 1 < m < n && ExprAt(ts, i + 1) == Got(s.cond, m)
    ensures BlockAt(ts, m) == Got(s.thn, n) && ElseAt(ts, n) == Got(s.els, j)
  {
    m := ExprAt(ts, i + 1).next;
    n := BlockAt(ts, m).next;
  }

  lemma {:induction false} ElseIff(ts: seq<Token>, i: nat, j: nat, els: Option<seq<Stmt>>)
    ensures ElseAt(ts, i) == Got(els, j) <==> IsElse(ts, i, j, els)
    decreases |ts| - i, 0
  {
    if Tok(ts, i, Else) && els.Some? {
      if Tok(ts, i + 1, If) {
        if |els.value| == 1 && els.value[0].IfS? {
          IfIff(ts, i + 1, j, els.value[0]);
          assert [els.value[0]] == els.value;
        }
      } else {
        BlockIff(ts, i + 1, j, els.value);
      }
    }
  }

  lemma {:induction false} ForIff(ts: seq<Token>, i: nat, j: nat, s: Stmt)
    requires s.ForS?
    ensures ForAt(ts, i) == Got(s, j) <==> IsFor(ts, i, j, s)
    decreases |ts| - i, 1
  {
    if IsFor(ts, i, j, s) {
      var m := ForHead(ts, i, j, s);
      ExprIff(ts, i + 3, m, s.iter);
      BlockIff(ts, m, j, s.body);
      ForFound(ts, i, m, j, s);
    }
    if ForAt(ts, i) == Got(s, j) {
      var m := ForParts(ts, i, j, s);
      ExprIff(ts, i + 3, m, s.iter);
      BlockIff(ts, m, j, s.body);
    }
  }

  lemma ForHead(ts: seq<Token>, i: nat, j: nat, s: Stmt) returns (m: nat)
    requires s.ForS? && IsFor(ts, i, j, s)
    ensures i < m && IsExpr(ts, i + 3, m, s.iter) && IsBlock(ts, m, j, s.body)
  {
    m :| i < m && IsExpr(ts, i + 3, m, s.iter) && IsBlock(ts, m, j, s.body);
  }

  lemma ForFound(ts: seq<Token>, i: nat, m: nat, j: nat, s: Stmt)
    requires s.ForS? && Tok(ts, i, For) && Name(ts, i + 1, s.variable) && Tok(ts, i + 2, In)
    requires ExprAt(ts, i + 3) == Got(s.iter, m) && BlockAt(ts, m) == Got(s.body, j)
    ensures ForAt(ts, i) == Got(s, j)
  {
  }

  lemma ForParts(ts: seq<Token>, i: nat, j: nat, s: Stmt) returns (m: nat)
    requires s.ForS? && ForAt(ts, i) == Got(s, j)
    ensures i < m && Tok(ts, i, For) && Name(ts, i + 1, s.variable) && Tok(ts, i + 2, In)
    ensures ExprAt(ts, i + 3) == Got(s.iter, m) && BlockAt(ts, m) == Got(s.body, j)
  {
    m := ExprAt(ts, i + 3).next;
  }

  lemma {:induction false} MatchIff(ts: seq<Token>, i: nat, j: nat, s: Stmt)
    requires s.MatchS?
    ensures MatchAt(ts, i) == Got(s, j) <==> IsMatch(ts, i, j, s)
    decreases |ts| - i, 1
  {
    hide *;
    if IsMatch(ts, i, j, s) {
      var m := MatchHead(ts, i, j, s);
      ExprIff(ts, i + 1, m, s.scrutinee);
      CasesIff(ts, m + 1, j, s.cases);
      MatchFound(ts, i, m, j, s);
    }
    if MatchAt(ts, i) == Got(s, j) { MatchRight(ts, i, j, s); }
  }

  lemma {:induction false} MatchRight(ts: seq<Token>, i: nat, j: nat, s: Stmt)
    requires s.MatchS? && MatchAt(ts, i) == Got(s, j)
    ensures IsMatch(ts, i, j, s)
    decreases |ts| - i, 0
  {
    hide *;
    var m := MatchParts(ts, i, j, s);
    ExprIff(ts, i + 1, m, s.scrutinee);
    CasesIff(ts, m + 1, j, s.cases);
    MatchMade(ts, i, m, j, s);
  }

  lemma MatchMade(ts: seq<Token>, i: nat, m: nat, j: nat, s: Stmt)
    requires s.MatchS? && Tok(ts, i, Match) && i < m && Tok(ts, m, LBrace)
    requires IsExpr(ts, i + 1, m, s.scrutinee) && IsCases(ts, m + 1, j, s.cases)
    ensures IsMatch(ts, i, j, s)
  {
    hide IsExpr;
  }

  lemma MatchHead(ts: seq<Token>, i: nat, j: nat, s: Stmt) returns (m: nat)
    requires s.MatchS? && IsMatch(ts, i, j, s)
    ensures Tok(ts, i, Match) && i < m && Tok(ts, m, LBrace)
    ensures IsExpr(ts, i + 1, m, s.scrutinee) && IsCases(ts, m + 1, j, s.cases)
  {
    m :| i < m && IsExpr(ts, i + 1, m, s.scrutinee) && Tok(ts, m, LBrace) && IsCases(ts, m + 1, j, s.cases);
  }

  lemma MatchFound(ts: seq<Token>, i: nat, m: nat, j: nat, s: Stmt)
    requires s.MatchS? && Tok(ts, i, Match) && ExprAt(ts, i + 1) == Got(s.scrutinee, m) && Tok(ts, m, LBrace)
    requires CasesAt(ts, m + 1) == Got(s.cases, j)
    ensures MatchAt(ts, i) == Got(s, j)
  {
  }

  lemma MatchParts(ts: seq<Token>, i: nat, j: nat, s: Stmt) returns (m: nat)
    requires s.MatchS? && MatchAt(ts, i) == Got(s, j)
    ensures i < m && Tok(ts, i, Match) && ExprAt(ts, i + 1) == Got(s.scrutinee, m) && Tok(ts, m, LBrace)
    ensures CasesAt(ts, m + 1) == Got(s.cases, j)
  {
    m := ExprAt(ts, i + 1).next;
  }

  lemma {:induction false} CasesIff(ts: seq<Token>, i: nat, j: nat, cases: seq<MatchCase>)
    ensures CasesAt(ts, i) == Got(cases, j) <==> IsCases(ts, i, j, cases)
    decreases |ts| - i, 1
  {
    if cases != [] && !Tok(ts, i, RBrace) {
      if IsCases(ts, i, j, cases) {
        var m := FirstCase(ts, i, j, cases);
        CaseIff(ts, i, m, cases[0]);
        CasesIff(ts, m, j, cases[1..]);
        CasesFound(ts, i, m, j, cases);
      }
      if CasesAt(ts, i) == Got(cases, j) {
        var m := CasesParts(ts, i, j, cases);
        CaseIff(ts, i, m, cases[0]);
        CasesIff(ts, m, j, cases[1..]);
      }
    }
  }

  lemma FirstCase(ts: seq<Token>, i: nat, j: nat, cases: seq<MatchCase>) returns (m: nat)
    requires cases != [] && IsCases(ts, i, j, cases)
    ensures i < m <= |ts| && IsCase(ts, i, m, cases[0]) && IsCases(ts, m, j, cases[1..])
  {
    m :| i < m <= |ts| && IsCase(ts, i, m, cases[0]) && IsCases(ts, m, j, cases[1..]);
  }

  lemma CasesFound(ts: seq<Token>, i: nat, m: nat, j: nat, cases: seq<MatchCase>)
    requires cases != [] && !Tok(ts, i, RBrace)
    requires CaseAt(ts, i) == Got(cases[0], m) && CasesAt(ts, m) == Got(cases[1..], j)
    ensures CasesAt(ts, i) == Got(cases, j)
  {
    assert [cases[0]] + cases[1..] == cases;
  }

  lemma CasesParts(ts: seq<Token>, i: nat, j: nat, cases: seq<MatchCase>) returns (m: nat)
    requires cases != [] && CasesAt(ts, i) == Got(cases, j)
    ensures i < m <= |ts| && CaseAt(ts, i) == Got(cases[0], m) && CasesAt(ts, m) == Got(cases[1..], j)
  {
    m := CaseAt(ts, i).next;
  }

  lemma {:induction false} CaseIff(ts: seq<Token>, i: nat, j: nat, c: MatchCase)
    ensures CaseAt(ts, i) == Got(c, j) <==> IsCase(ts, i, j, c)
    decreases |ts| - i, 0
  {
    if IsCase(ts, i, j, c) {
      var m := CaseHead(ts, i, j, c);
      PatternIff(ts, i, m, c.pattern, c.bindings);
      CaseBodyIff(ts, i, m, j, c);
    }
    if CaseAt(ts, i) == Got(c, j) {
      var m := PatternAt(ts, i).next;
      PatternIff(ts, i, m, c.pattern, c.bindings);
      CaseBodyIff(ts, i, m, j, c);
    }
  }

  ghost predicate IsCaseBody(ts: seq<Token>, m: nat, j: nat, c: MatchCase) {
    && Tok(ts, m, FatArrow)
    && if Tok(ts, m + 1, LBrace) then IsBlock(ts, m + 1, j, c.body)
       else |c.body| == 1 && IsStmt(ts, m + 1, j, c.body[0])
  }

  lemma CaseHead(ts: seq<Token>, i: nat, j: nat, c: MatchCase) returns (m: nat)
    requires IsCase(ts, i, j, c)
    ensures i <= m && IsPattern(ts, i, m, c.pattern, c.bindings) && IsCaseBody(ts, m, j, c)
  {
    m :| i <= m && IsPattern(ts, i, m, c.pattern, c.bindings) && IsCaseBody(ts, m, j, c);
  }

  lemma BracedCase(ts: seq<Token>, i: nat, m: nat, j: nat, c: MatchCase)
    requires PatternAt(ts, i) == Got((c.pattern, c.bindings), m) && Tok(ts, m, FatArrow) && Tok(ts, m + 1, LBrace)
    ensures CaseAt(ts, i) == Got(c, j) <==> BlockAt(ts, m + 1) == Got(c.body, j)
  {
    hide PatternAt, BlockAt, StmtAt;
  }

  lemma SingleFound(ts: seq<Token>, i: nat, m: nat, j: nat, c: MatchCase)
    requires PatternAt(ts, i) == Got((c.pattern, c.bindings), m) && Tok(ts, m, FatArrow) && !Tok(ts, m + 1, LBrace)
    requires |c.body| == 1 && StmtAt(ts, m + 1) == Got(c.body[0], j)
    ensures CaseAt(ts, i) == Got(c, j)
  {
    hide PatternAt, BlockAt, StmtAt;
    assert [c.body[0]] == c.body;
  }

  lemma SingleParts(ts: seq<Token>, i: nat, m: nat, j: nat, c: MatchCase)
    requires PatternAt(ts, i) == Got((c.pattern, c.bindings), m) && Tok(ts, m, FatArrow) && !Tok(ts, m + 1, LBrace)
    requires CaseAt(ts, i) == Got(c, j)
    ensures |c.body| == 1 && StmtAt(ts, m + 1) == Got(c.body[0], j)
  {
    hide PatternAt, BlockAt, StmtAt;
  }

  lemma {:induction false} CaseBodyIff(ts: seq<Token>, i: nat, m: nat, j: nat, c: MatchCase)
    requires i <= m && PatternAt(ts, i) == Got((c.pattern, c.bindings), m)
    ensures CaseAt(ts, i) == Got(c, j) <==> IsCaseBody(ts, m, j, c)
    decreases |ts| - i, 0, 0
  {
    if Tok(ts, m, FatArrow) {
      if Tok(ts, m + 1, LBrace) {
        BracedCase(ts, i, m, j, c);
        BlockIff(ts, m + 1, j, c.body);
      } else {
        SingleIff(ts, i, m, j, c);
      }
    }
  }

  lemma {:induction false} SingleIff(ts: seq<Token>, i: nat, m: nat, j: nat, c: MatchCase)
    requires i <= m && PatternAt(ts, i) == Got((c.pattern, c.bindings), m)
    requires Tok(ts, m, FatArrow) && !Tok(ts, m + 1, LBrace)
    ensures CaseAt(ts, i) == Got(c, j) <==> |c.body| == 1 && IsStmt(ts, m + 1, j, c.body[0])
    decreases |ts| - i, 0, 0, 0
  {
    if |c.body| == 1 {
      StmtIff(ts, m + 1, j, c.body[0]);
      if IsStmt(ts, m + 1, j, c.body[0]) { SingleFound(ts, i, m, j, c); }
    }
    if CaseAt(ts, i) == Got(c, j) { SingleParts(ts, i, m, j, c); }
  }
}
