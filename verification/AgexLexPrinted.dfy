/** Tokenizing printed text character by character gives exactly its tokens. */
module AgexLexPrinted {
  import opened AgexAst
  import opened AgexLexer
  import opened AgexPrinter

  /** `rest` does not lengthen a word or number in front of it. */
  predicate Separate(rest: string) {
    rest == [] || (!IsIdentPart(rest[0]) && !(rest[0] == '.' && |rest| > 1 && IsDigit(rest[1])))
  }

  /** What a printed expression starts with. */
  predicate Head(s: string) {
    s != [] && (s[0] == '(' || IsDigit(s[0]) || IsIdentStart(s[0]))
  }

  lemma {:induction false} SpanAppend(k: Class, a: string, b: string)
    requires Span(k, a) < |a| || b == [] || !InClass(k, b[0])
    ensures Span(k, a + b) == Span(k, a)
    decreases |a|
  {
    if a == [] {
      assert a + b == b;
    } else if InClass(k, a[0]) {
      assert (a + b)[1..] == a[1..] + b;
      SpanAppend(k, a[1..], b);
    }
  }

  lemma {:induction false} SpanBound(k: Class, s: string)
    ensures Span(k, s) < |s| ==> !InClass(k, s[Span(k, s)])
    ensures forall i :: 0 <= i < Span(k, s) ==> InClass(k, s[i])
  {
    if s != [] && InClass(k, s[0]) { SpanBound(k, s[1..]); }
  }

  lemma LexEmit(s: string, t: Token, a: string, rest: string)
    requires s == a + rest && a != [] && NextStep(s) == Emit(t, |a|)
    ensures Lex(s) == Prepend([t], Lex(rest))
  {
    assert s[|a|..] == rest;
  }

  lemma LexWord(w: string, rest: string)
    requires w != [] && IsIdentStart(w[0]) && Span(IdentPart, w) == |w| && Separate(rest)
    ensures Lex(w + rest) == Prepend([Token(Lookup(w), w)], Lex(rest))
  {
    var s := w + rest;
    SpanAppend(IdentPart, w, rest);
    assert s[0] == w[0] && s[..|w|] == w;
    LexEmit(s, Token(Lookup(w), w), w, rest);
  }

  lemma TailAppend(t: string, rest: string, k: nat)
    requires k <= |t|
    ensures (t + rest)[k..] == t[k..] + rest
  {
  }

  /** The part before a fraction of a number does not depend on what follows. */
  lemma FractionAppend(t: string, rest: string)
    requires NumberText(t) && Separate(rest)
    ensures Span(Digits, t + rest) == Span(Digits, t) && HasFraction(t + rest) == HasFraction(t)
  {
    var s, d := t + rest, Span(Digits, t);
    SpanAppend(Digits, t, rest);
    if d < |t| {
      assert s[d] == t[d];
      NoTrailingDot(t);
      if d + 1 < |t| { assert s[d + 1] == t[d + 1]; }
    } else if rest != [] {
      assert s[d] == rest[0];
      if |rest| > 1 { assert s[d + 1] == rest[1]; }
    }
  }

  lemma NoTrailingDot(t: string)
    requires NumberText(t)
    ensures Span(Digits, t) + 1 == |t| ==> t[Span(Digits, t)] != '.'
  {
    var d := Span(Digits, t);
    if d + 1 == |t| {
      assert t[d..][0] == t[d];
      assert MantissaLen(t) == d;
    }
  }

  lemma MantissaAppend(t: string, rest: string)
    requires NumberText(t) && Separate(rest)
    ensures MantissaLen(t + rest) == MantissaLen(t)
  {
    var d := Span(Digits, t);
    FractionAppend(t, rest);
    if HasFraction(t) {
      TailAppend(t, rest, d + 1);
      SpanAppend(Digits, t[d + 1..], rest);
    }
  }

  lemma NumberAppend(t: string, rest: string)
    requires NumberText(t) && Separate(rest)
    ensures NumberLen(t + rest) == |t| && HasFraction(t + rest) == HasFraction(t)
  {
    var m := MantissaLen(t);
    FractionAppend(t, rest);
    MantissaAppend(t, rest);
    TailAppend(t, rest, m);
    SpanAppend(Alnum, t[m..], rest);
  }

  lemma LexNumber(t: string, rest: string)
    requires NumberText(t) && Separate(rest)
    ensures Lex(t + rest) == Prepend([Token(if HasFraction(t) then FloatLiteral else IntLiteral, t)], Lex(rest))
  {
    var s := t + rest;
    NumberAppend(t, rest);
    assert s[0] == t[0] && s[..|t|] == t;
    LexEmit(s, Token(if HasFraction(t) then FloatLiteral else IntLiteral, t), t, rest);
  }

  lemma LexSpace(rest: string)
    ensures Lex([' '] + rest) == Lex(rest)
  {
    assert ([' '] + rest)[1..] == rest;
  }

  /** One-character symbols that nothing after them can lengthen. */
  lemma LexPunct(c: char, rest: string)
    requires c == '(' || c == ')' || c == ','
    ensures Lex([c] + rest) == Prepend([Token(OneOp(c).value, [c])], Lex(rest))
  {
    var s := [c] + rest;
    assert s[..1] == [c];
    LexEmit(s, Token(OneOp(c).value, [c]), [c], rest);
  }

  lemma LexDot(rest: string)
    requires rest != [] && IsIdentStart(rest[0])
    ensures Lex(['.'] + rest) == Prepend([DOT], Lex(rest))
  {
    var s := ['.'] + rest;
    assert s[..1] == ['.'] && s[1] == rest[0];
    LexEmit(s, DOT, ['.'], rest);
  }

  lemma LexPrefix(op: string, rest: string)
    requires PrefixType(op).Some? && Head(rest)
    ensures Lex(op + rest) == Prepend([Token(PrefixType(op).value, op)], Lex(rest))
  {
    var s := op + rest;
    assert op == [op[0]] && s[0] == op[0] && s[1] == rest[0] && s[..1] == op;
    LexEmit(s, Token(PrefixType(op).value, op), op, rest);
  }

  lemma OpStep(op: string, rest: string)
    requires BinType(op).Some?
    ensures NextStep(op + ([' '] + rest)) == Emit(Token(BinType(op).value, op), |op|)
  {
    var s := op + ([' '] + rest);
    assert s[0] == op[0] && s[..|op|] == op && s[|op|] == ' ';
    if |op| == 2 { assert s[1] == op[1]; }
    assert NextStep(s) == Symbol(s);
    OpSymbol(op, s);
  }

  lemma OpSymbol(op: string, s: string)
    requires BinType(op).Some? && |s| > |op| && s[..|op|] == op && s[|op|] == ' '
    ensures Symbol(s) == Emit(Token(BinType(op).value, op), |op|)
  {
    assert s[0] == op[0];
    if |op| == 2 { assert s[1] == op[1]; }
  }

  lemma LexOp(op: string, rest: string)
    requires BinType(op).Some?
    ensures Lex(op + ([' '] + rest)) == Prepend([Token(BinType(op).value, op)], Lex(rest))
  {
    OpStep(op, rest);
    LexEmit(op + ([' '] + rest), Token(BinType(op).value, op), op, [' '] + rest);
    LexSpace(rest);
  }

  // -------------------------------------------------------- words used below

  lemma PlainWord(w: string, rest: string)
    requires Plain(w) && Separate(rest)
    ensures Lex(w + rest) == Prepend([WordToken(w)], Lex(rest))
  {
    LexWord(w, rest);
  }

  lemma {:induction false} FindMiss(table: seq<(string, TokenType)>, v: string)
    requires forall i :: 0 <= i < |table| ==> table[i].0 != v
    ensures Find(table, v) == Ident
  {
    if table != [] { FindMiss(table[1..], v); }
  }

  /** A word that differs from every keyword in length or in its first or last letter. */
  lemma NotKeyword(v: string)
    requires v != []
    requires forall i :: 0 <= i < |KEYWORDS| ==>
      var k := KEYWORDS[i].0; |k| != |v| || k[0] != v[0] || k[|v| - 1] != v[|v| - 1]
    ensures Lookup(v) == Ident
  {
    FindMiss(KEYWORDS, v);
  }

  lemma BuiltinWords(v: string)
    requires v == "true" || v == "false" || v == "None" || v == "self" || v == "len"
          || v == "unwrap_or" || v == "to_uppercase" || v == "to_lowercase"
    ensures Plain(v)
  {
    if |v| == 4 {
      FourLetters(v);
    } else {
      AllIdent(v);
      NotKeyword(v);
    }
  }

  lemma FourLetters(v: string)
    requires v == "true" || v == "None" || v == "self"
    ensures Plain(v)
  {
    AllIdent(v);
    NotKeyword(v);
  }

  lemma {:induction false} AllIdent(v: string)
    requires forall i :: 0 <= i < |v| ==> IsIdentPart(v[i])
    ensures Span(IdentPart, v) == |v|
  {
    if v != [] { AllIdent(v[1..]); }
  }

  lemma RenamedPlain(name: string)
    requires Plain(name)
    ensures Plain(MethodName(name))
  {
    if name == "uppercase" { BuiltinWords("to_uppercase"); }
    else if name == "lowercase" { BuiltinWords("to_lowercase"); }
    else if name == "length" { BuiltinWords("len"); }
  }

  lemma RangeIsKeyword()
    ensures Lookup("range") == Range
  {
    FindAt(KEYWORDS, "range", 9);
  }

  lemma {:induction false} FindAt(table: seq<(string, TokenType)>, v: string, i: nat)
    requires i < |table| && table[i].0 == v && forall j :: 0 <= j < i ==> table[j].0 != v
    ensures Find(table, v) == table[i].1
  {
    if i > 0 { FindAt(table[1..], v, i - 1); }
  }

  // ------------------------------------------------------ whole expressions

  /** The text `s` is read as `toks` and leaves `rest`. */
  ghost predicate Reads(s: string, toks: seq<Token>, rest: string) {
    Lex(s) == Prepend(toks, Lex(rest))
  }

  lemma Chain(s: string, a: seq<Token>, mid: string, b: seq<Token>, rest: string)
    requires Reads(s, a, mid) && Reads(mid, b, rest)
    ensures Reads(s, a + b, rest)
  {
    PrependTwice(a, b, Lex(rest));
  }

  /** `( l op r )` */
  lemma ReadBinary(l: string, lt: seq<Token>, op: string, r: string, rt: seq<Token>, rest: string)
    requires BinType(op).Some?
    requires Reads(l + ([' '] + (op + ([' '] + (r + ([')'] + rest))))), lt,
      [' '] + (op + ([' '] + (r + ([')'] + rest)))))
    requires Reads(r + ([')'] + rest), rt, [')'] + rest)
    ensures Reads(['('] + (l + ([' '] + (op + ([' '] + (r + ([')'] + rest)))))),
                  [LP] + lt + [Token(BinType(op).value, op)] + rt + [RP], rest)
  {
    var t5 := [')'] + rest;
    var t4 := r + t5;
    var t3 := op + ([' '] + t4);
    var t1 := l + ([' '] + t3);
    LexPunct('(', t1);
    LexSpace(t3);
    LexOp(op, t4);
    LexPunct(')', rest);
    Chain(['('] + t1, [LP], t1, lt, t3);
    Chain(['('] + t1, [LP] + lt, t3, [Token(BinType(op).value, op)], t4);
    Chain(['('] + t1, [LP] + lt + [Token(BinType(op).value, op)], t4, rt, t5);
    Chain(['('] + t1, [LP] + lt + [Token(BinType(op).value, op)] + rt, t5, [RP], rest);
  }

  /** `( op x )` */
  lemma ReadUnary(op: string, x: string, xt: seq<Token>, rest: string)
    requires PrefixType(op).Some? && Head(x)
    requires Reads(x + ([')'] + rest), xt, [')'] + rest)
    ensures Reads(['('] + (op + (x + ([')'] + rest))), [LP, Token(PrefixType(op).value, op)] + xt + [RP], rest)
  {
    var t3 := [')'] + rest;
    var t2 := x + t3;
    var t1 := op + t2;
    assert Head(t2) by { assert t2[0] == x[0]; }
    LexPunct('(', t1);
    LexPrefix(op, t2);
    LexPunct(')', rest);
    Chain(['('] + t1, [LP], t1, [Token(PrefixType(op).value, op)], t2);
    assert [LP] + [Token(PrefixType(op).value, op)] == [LP, Token(PrefixType(op).value, op)];
    Chain(['('] + t1, [LP, Token(PrefixType(op).value, op)], t2, xt, t3);
    Chain(['('] + t1, [LP, Token(PrefixType(op).value, op)] + xt, t3, [RP], rest);
  }

  /** `( args )` after something already read. */
  lemma ReadCall(s: string, before: seq<Token>, a: string, at: seq<Token>, rest: string)
    requires Reads(s, before, ['('] + (a + ([')'] + rest)))
    requires Reads(a + ([')'] + rest), at, [')'] + rest)
    ensures Reads(s, before + [LP] + at + [RP], rest)
  {
    var t2 := [')'] + rest;
    var t1 := a + t2;
    LexPunct('(', t1);
    LexPunct(')', rest);
    Chain(s, before, ['('] + t1, [LP], t1);
    Chain(s, before + [LP], t1, at, t2);
    Chain(s, before + [LP] + at, t2, [RP], rest);
  }

  /** `. name` after something already read. */
  lemma ReadMember(s: string, before: seq<Token>, name: string, rest: string)
    requires Reads(s, before, ['.'] + (name + rest)) && Plain(name) && Separate(rest)
    ensures Reads(s, before + [DOT, WordToken(name)], rest)
  {
    assert (name + rest)[0] == name[0];
    LexDot(name + rest);
    PlainWord(name, rest);
    Chain(s, before, ['.'] + (name + rest), [DOT], name + rest);
    Chain(s, before + [DOT], name + rest, [WordToken(name)], rest);
    assert before + [DOT] + [WordToken(name)] == before + [DOT, WordToken(name)];
  }

  lemma HeadAppend(a: string, b: string)
    requires Head(a)
    ensures Head(a + b)
  {
    assert (a + b)[0] == a[0];
  }

  lemma {:induction false} GenHead(e: Expr)
    requires Base(e)
    ensures Head(GenExpr(e))
  {
    match e
    case CallE(callee, args) =>
      GenHead(callee);
      CallText(e);
      HeadAppend(GenExpr(callee), "(" + GenArgs(args) + ")");
    case MethodE(recv, _, _) => GenHead(recv);
    case FieldE(recv, _) => GenHead(recv);
    case ElvisE(left, _) => GenHead(left);
    case _ =>
  }

  lemma {:induction false} LexGen(e: Expr, rest: string)
    requires Base(e) && Separate(rest)
    ensures Reads(GenExpr(e) + rest, Toks(e), rest)
    decreases e, 1
  {
    match e
    case IntE(text) => LexNumber(text, rest);
    case FloatE(text) => LexNumber(text, rest);
    case BoolE(b) =>
      BuiltinWords(if b then "true" else "false");
      PlainWord(if b then "true" else "false", rest);
    case NullE =>
      BuiltinWords("None");
      PlainWord("None", rest);
    case ThisE =>
      BuiltinWords("self");
      PlainWord("self", rest);
    case IdentE(name) => PlainWord(name, rest);
    case BinaryE(_, _, _) => LexBinary(e, rest);
    case UnaryE(_, _) => LexUnary(e, rest);
    case CallE(_, _) => LexCall(e, rest);
    case MethodE(_, _, _) => LexMethod(e, rest);
    case FieldE(_, _) => LexField(e, rest);
    case ElvisE(_, _) => LexElvis(e, rest);
  }

  lemma {:induction false} LexBinary(e: Expr, rest: string)
    requires Base(e) && e.BinaryE?
    ensures Reads(GenExpr(e) + rest, Toks(e), rest)
    decreases e, 0
  {
    var l, r, op := GenExpr(e.left), GenExpr(e.right), e.op;
    var tail := [' '] + (op + ([' '] + (r + ([')'] + rest))));
    LexGen(e.left, tail);
    LexGen(e.right, [')'] + rest);
    ReadBinary(l, Toks(e.left), op, r, Toks(e.right), rest);
    BinaryText(l, op, r, rest);
  }

  lemma BinaryText(l: string, op: string, r: string, rest: string)
    ensures "(" + l + " " + op + " " + r + ")" + rest == ['('] + (l + ([' '] + (op + ([' '] + (r + ([')'] + rest))))))
  {
  }

  lemma {:induction false} LexUnary(e: Expr, rest: string)
    requires Base(e) && e.UnaryE?
    ensures Reads(GenExpr(e) + rest, Toks(e), rest)
    decreases e, 0
  {
    var x := GenExpr(e.operand);
    GenHead(e.operand);
    LexGen(e.operand, [')'] + rest);
    ReadUnary(e.op, x, Toks(e.operand), rest);
    UnaryText(e, rest);
  }

  lemma UnaryText(e: Expr, rest: string)
    requires e.UnaryE? && PrefixType(e.op).Some?
    ensures GenExpr(e) + rest == ['('] + (e.op + (GenExpr(e.operand) + ([')'] + rest)))
  {
    assert "(" + e.op + GenExpr(e.operand) + ")" + rest == ['('] + (e.op + (GenExpr(e.operand) + ([')'] + rest)));
  }

  lemma CallText(e: Expr)
    requires Base(e) && e.CallE?
    ensures GenExpr(e) == GenExpr(e.callee) + "(" + GenArgs(e.args) + ")"
  {
    RangeIsKeyword();
  }

  lemma {:induction false} LexCall(e: Expr, rest: string)
    requires Base(e) && e.CallE?
    ensures Reads(GenExpr(e) + rest, Toks(e), rest)
    decreases e, 0
  {
    var c, a := GenExpr(e.callee), GenArgs(e.args);
    LexGen(e.callee, ['('] + (a + ([')'] + rest)));
    LexArgs(e.args, [')'] + rest);
    ReadCall(c + (['('] + (a + ([')'] + rest))), Toks(e.callee), a, ArgToks(e.args), rest);
    CallText(e);
    CallAssoc(c, a, rest);
  }

  lemma CallAssoc(c: string, a: string, rest: string)
    ensures c + "(" + a + ")" + rest == c + (['('] + (a + ([')'] + rest)))
  {
  }

  lemma MemberAssoc(r: string, name: string, a: string, rest: string)
    ensures r + "." + name + "(" + a + ")" + rest == r + (['.'] + (name + (['('] + (a + ([')'] + rest)))))
  {
  }

  /** `recv.name(args)` with the receiver and the arguments read as given. */
  lemma {:induction false} LexMemberCall(recv: Expr, name: string, a: string, at: seq<Token>, rest: string)
    requires Base(recv) && Plain(name) && Reads(a + ([')'] + rest), at, [')'] + rest)
    ensures Reads(GenExpr(recv) + "." + name + "(" + a + ")" + rest,
      Toks(recv) + [DOT, WordToken(name), LP] + at + [RP], rest)
    decreases recv, 2
  {
    var r := GenExpr(recv);
    var t1 := ['('] + (a + ([')'] + rest));
    var t0 := ['.'] + (name + t1);
    LexGen(recv, t0);
    ReadMember(r + t0, Toks(recv), name, t1);
    ReadCall(r + t0, Toks(recv) + [DOT, WordToken(name)], a, at, rest);
    JoinLP(Toks(recv), name);
    MemberAssoc(r, name, a, rest);
  }

  lemma JoinLP(ts: seq<Token>, name: string)
    ensures ts + [DOT, WordToken(name)] + [LP] == ts + [DOT, WordToken(name), LP]
  {
  }

  lemma NoArgsRead(rest: string)
    ensures Reads("" + ([')'] + rest), [], [')'] + rest)
  {
    assert "" + ([')'] + rest) == [')'] + rest;
    var r := Lex([')'] + rest);
    if r.Tokens? { assert [] + r.toks == r.toks; }
  }

  lemma {:induction false} LexMethod(e: Expr, rest: string)
    requires Base(e) && e.MethodE?
    ensures Reads(GenExpr(e) + rest, Toks(e), rest)
    decreases e, 0
  {
    var r, name := GenExpr(e.recv), MethodName(e.name);
    RenamedPlain(e.name);
    if Rewritten(e.name) {
      NoArgsRead(rest);
      LexMemberCall(e.recv, name, "", [], rest);
      assert r + "." + name + "(" + "" + ")" + rest == r + "." + name + "()" + rest;
    } else {
      LexArgs(e.args, [')'] + rest);
      LexMemberCall(e.recv, name, GenArgs(e.args), ArgToks(e.args), rest);
    }
  }

  lemma {:induction false} LexLength(e: Expr, rest: string)
    requires Base(e) && e.FieldE? && IsLength(e.name) && Separate(rest)
    ensures Reads(GenExpr(e) + rest, Toks(e), rest)
    decreases e, 0, 0
  {
    NoArgsRead(rest);
    BuiltinWords("len");
    LexMemberCall(e.recv, "len", "", [], rest);
    LenText(e, rest);
  }

  lemma {:induction false} LexField(e: Expr, rest: string)
    requires Base(e) && e.FieldE? && Separate(rest)
    ensures Reads(GenExpr(e) + rest, Toks(e), rest)
    decreases e, 0
  {
    if IsLength(e.name) {
      LexLength(e, rest);
    } else {
      LexNamedField(e, rest);
    }
  }

  lemma {:induction false} LexNamedField(e: Expr, rest: string)
    requires Base(e) && e.FieldE? && !IsLength(e.name) && Separate(rest)
    ensures Reads(GenExpr(e) + rest, Toks(e), rest)
    decreases e, 0, 0
  {
    LexGen(e.recv, ['.'] + (e.name + rest));
    ReadMember(GenExpr(e.recv) + (['.'] + (e.name + rest)), Toks(e.recv), e.name, rest);
    FieldText(e, rest);
  }

  lemma LenText(e: Expr, rest: string)
    requires Base(e) && e.FieldE? && IsLength(e.name)
    ensures GenExpr(e) + rest == GenExpr(e.recv) + "." + "len" + "(" + "" + ")" + rest
    ensures Toks(e) == Toks(e.recv) + [DOT, WordToken("len"), LP] + [] + [RP]
  {
    LenSplit(GenExpr(e.recv), rest);
    assert Toks(e.recv) + [DOT, WordToken("len"), LP] + [] + [RP] == Toks(e.recv) + [DOT, WordToken("len"), LP, RP];
  }

  lemma LenSplit(a: string, rest: string)
    ensures a + ".len()" + rest == a + "." + "len" + "(" + "" + ")" + rest
  {
    assert ".len()" == "." + "len" + "(" + "" + ")";
  }

  lemma DotText(a: string, name: string, rest: string)
    ensures a + "." + name + rest == a + (['.'] + (name + rest))
  {
  }

  lemma FieldText(e: Expr, rest: string)
    requires Base(e) && e.FieldE? && !IsLength(e.name)
    ensures GenExpr(e) + rest == GenExpr(e.recv) + (['.'] + (e.name + rest))
    ensures Toks(e) == Toks(e.recv) + [DOT, WordToken(e.name)]
  {
    DotText(GenExpr(e.recv), e.name, rest);
  }

  lemma {:induction false} LexElvis(e: Expr, rest: string)
    requires Base(e) && e.ElvisE?
    ensures Reads(GenExpr(e) + rest, Toks(e), rest)
    decreases e, 0
  {
    LexGen(e.right, [')'] + rest);
    LexUnwrap(e, "unwrap_or", rest);
  }

  lemma {:induction false} LexUnwrap(e: Expr, name: string, rest: string)
    requires Base(e) && e.ElvisE? && name == "unwrap_or"
    requires Reads(GenExpr(e.right) + ([')'] + rest), Toks(e.right), [')'] + rest)
    ensures Reads(GenExpr(e) + rest, Toks(e), rest)
    decreases e.left, 3
  {
    BuiltinWords(name);
    LexMemberCall(e.left, name, GenExpr(e.right), Toks(e.right), rest);
    ElvisText(e, rest);
  }

  lemma ElvisText(e: Expr, rest: string)
    requires Base(e) && e.ElvisE?
    ensures GenExpr(e) + rest == GenExpr(e.left) + "." + "unwrap_or" + "(" + GenExpr(e.right) + ")" + rest
    ensures Toks(e) == Toks(e.left) + [DOT, WordToken("unwrap_or"), LP] + Toks(e.right) + [RP]
  {
    assert ".unwrap_or(" == "." + "unwrap_or" + "(";
  }

  lemma {:induction false} LexArgs(args: seq<Expr>, rest: string)
    requires BaseAll(args) && Separate(rest)
    ensures Reads(GenArgs(args) + rest, ArgToks(args), rest)
    decreases args, 0
  {
    if |args| == 0 {
      assert "" + rest == rest;
      PrependNone(Lex(rest));
    } else if |args| == 1 {
      LexGen(args[0], rest);
    } else {
      var n := |args| - 1;
      var a, x := GenArgs(args[..n]), GenExpr(args[n]);
      LexArgs(args[..n], [','] + ([' '] + (x + rest)));
      LexGen(args[n], rest);
      ReadComma(a, ArgToks(args[..n]), x, Toks(args[n]), rest);
    }
  }

  lemma PrependNone(r: LexResult)
    ensures Prepend([], r) == r
  {
  }

  /** `a, x` */
  lemma ReadComma(a: string, at: seq<Token>, x: string, xt: seq<Token>, rest: string)
    requires Reads(a + ([','] + ([' '] + (x + rest))), at, [','] + ([' '] + (x + rest)))
    requires Reads(x + rest, xt, rest)
    ensures Reads(a + ", " + x + rest, at + [COMMA] + xt, rest)
  {
    var t2 := x + rest;
    var t1 := [','] + ([' '] + t2);
    CommaSpace(t2);
    Chain(a + t1, at, t1, [COMMA], t2);
    Chain(a + t1, at + [COMMA], t2, xt, rest);
    CommaAssoc(a, x, rest);
  }

  lemma CommaSpace(rest: string)
    ensures Reads([','] + ([' '] + rest), [COMMA], rest)
  {
    LexPunct(',', [' '] + rest);
    LexSpace(rest);
  }

  lemma CommaAssoc(a: string, x: string, rest: string)
    ensures a + ", " + x + rest == a + ([','] + ([' '] + (x + rest)))
  {
  }
}
