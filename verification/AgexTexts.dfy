/** Text of the printer that is not read back as it stood: string literals, the
    renamed members, and `println` with its placeholders. */
module AgexTexts {
  import opened AgexAst
  import opened AgexLexer
  import opened AgexPrinter

  // --------------------------------------------------------- string literals

  /** The first `n` characters are taken as they stand. */
  predicate AsTheyStand(s: string, q: char, n: nat)
    requires n <= |s|
  {
    && (forall i :: 0 <= i < n ==> s[i] != q)
    && (forall i :: 0 <= i < n - 1 ==> s[i] != '\\') && (n > 0 && s[n - 1] == '\\' ==> n == |s|)
  }

  /** Every escape makes the text shorter than its source. */
  lemma {:induction false} QuotedShrinks(s: string, q: char)
    ensures var (t, n) := Quoted(s, q);
      |t| <= n && (|t| == n ==> t == s[..n] && AsTheyStand(s, q, n))
    decreases |s|
  {
    if s != [] && s[0] != q {
      if s[0] == '\\' && |s| > 1 {
        QuotedShrinks(s[2..], q);
      } else {
        var (t, n) := Quoted(s[1..], q);
        QuotedShrinks(s[1..], q);
        if |t| == n { OneMore(s, q, n); }
      }
    }
  }

  lemma OneMore(s: string, q: char, n: nat)
    requires s != [] && n <= |s[1..]| && (s[0] == '\\' ==> |s| == 1) && s[0] != q && AsTheyStand(s[1..], q, n)
    ensures [s[0]] + s[1..][..n] == s[..n + 1] && AsTheyStand(s, q, n + 1)
  {
    forall i | 0 <= i < n ensures s[i] != '\\' {
      if i > 0 { assert s[1..][i - 1] == s[i]; }
    }
    forall i | 0 <= i < n + 1 ensures s[i] != q {
      if i > 0 { assert s[1..][i - 1] == s[i]; }
    }
    if n > 0 { assert s[1..][n - 1] == s[n]; }
  }

  lemma {:induction false} QuotedPlain(text: string, q: char, rest: string)
    requires (forall i :: 0 <= i < |text| ==> text[i] != q && text[i] != '\\') && rest != "" && rest[0] == q
    ensures Quoted(text + rest, q) == (text, |text|)
    decreases |text|
  {
    if text == "" {
      assert text + rest == rest;
    } else {
      QuotedPlain(text[1..], q, rest);
      assert (text + rest)[1..] == text[1..] + rest;
      assert [text[0]] + text[1..] == text;
    }
  }

  /** Strings are printed unescaped: a literal is read back exactly when its text has
      neither a quote nor a backslash. */
  lemma StringReadsBack(text: string)
    ensures Lex(GenExpr(StringE(text))) == Tokens([Token(StringLiteral, text), Token(Eof, "")])
      <==> '"' !in text && '\\' !in text
  {
    var s, inner := GenExpr(StringE(text)), text + "\"";
    assert s[1..] == inner && s == "\"" + text + "\"" && |s| == |text| + 2;
    hide GenExpr;
    if '"' !in text && '\\' !in text {
      QuotedPlain(text, '"', "\"");
      StringStep(s, inner);
      assert s[|s|..] == "" && Lex("") == Tokens([Token(Eof, "")]);
    }
    if Lex(s) == Tokens([Token(StringLiteral, text), Token(Eof, "")]) {
      LexedString(s, inner);
      TextStands(text, inner, Quoted(inner, '"').1);
    }
  }

  lemma TextStands(text: string, inner: string, n: nat)
    requires inner == text + "\"" && Quoted(inner, '"') == (text, n) && n <= |text|
    ensures '"' !in text && '\\' !in text
  {
    QuotedShrinks(inner, '"');
    assert inner[..n] == text;
    forall i | 0 <= i < n ensures text[i] != '"' && text[i] != '\\' { assert inner[i] == text[i]; }
  }

  lemma LexedString(s: string, inner: string)
    requires s != [] && s[0] == '"' && s[1..] == inner && Lex(s).Tokens?
    ensures Lex(s).toks != [] && Lex(s).toks[0] == Token(StringLiteral, Quoted(inner, '"').0)
      && 1 + Quoted(inner, '"').1 != |s|
  {
    StringStep(s, inner);
    FirstToken(s, NextStep(s));
  }

  lemma FirstToken(s: string, r: Step)
    requires s != [] && r == NextStep(s) && !r.Skip? && Lex(s).Tokens?
    ensures r.Emit? && Lex(s).toks != [] && Lex(s).toks[0] == r.tok
  {
    hide NextStep;
  }

  lemma StringStep(s: string, inner: string)
    requires s != [] && s[0] == '"' && s[1..] == inner
    ensures NextStep(s) ==
      if 1 + Quoted(inner, '"').1 == |s| then Bad(UnterminatedString)
      else Emit(Token(StringLiteral, Quoted(inner, '"').0), Quoted(inner, '"').1 + 2)
  {
  }

  // ---------------------------------------------------------------- renamings

  /** What is printed for the words and members that the target language has not. */
  lemma RenamedMethod(recv: Expr, name: string, args: seq<Expr>, target: string)
    requires || (name == "uppercase" && target == "to_uppercase") || (name == "lowercase" && target == "to_lowercase")
             || (name == "length" && target == "len") || (name == "len" && target == "len")
    ensures GenExpr(MethodE(recv, name, args)) == GenExpr(recv) + "." + target + "()"
  {
  }

  lemma RenamedField(recv: Expr, name: string)
    requires name == "length" || name == "len"
    ensures GenExpr(FieldE(recv, name)) == GenExpr(recv) + ".len()"
  {
  }

  lemma RenamedWords(left: Expr, right: Expr)
    ensures GenExpr(NullE) == "None" && GenExpr(ThisE) == "self"
    ensures GenExpr(ElvisE(left, right)) == GenExpr(left) + ".unwrap_or(" + GenExpr(right) + ")"
  {
  }

  // ------------------------------------------------------------------ println

  /** The arguments that are no string literals, in order. */
  function Values(args: seq<Expr>): seq<Expr> {
    if args == [] then []
    else if args[|args| - 1].StringE? then Values(args[..|args| - 1])
    else Values(args[..|args| - 1]) + [args[|args| - 1]]
  }

  /** The pieces of the format string that are placeholders. */
  function Placeholders(args: seq<Expr>): nat {
    if args == [] then 0
    else Placeholders(args[..|args| - 1]) + if args[|args| - 1].StringE? then 0 else 1
  }

  lemma {:induction false} RestSnoc(args: seq<Expr>, a: Expr)
    ensures GenRest(args + [a]) == GenRest(args) + if a.StringE? then [] else [GenExpr(a)]
    decreases |args|
  {
    if args == [] {
      assert [a][1..] == [] && GenRest([]) == [];
      assert args + [a] == [a];
    } else {
      RestSnoc(args[1..], a);
      assert (args + [a])[1..] == args[1..] + [a];
    }
  }

  /** `println` has one argument behind its format string for every argument that is
      no string literal, in their order, and as many placeholders. */
  lemma {:induction false} PrintedValues(args: seq<Expr>)
    ensures |GenRest(args)| == |Values(args)| == Placeholders(args)
    ensures forall i :: 0 <= i < |Values(args)| ==> GenRest(args)[i] == GenExpr(Values(args)[i])
    ensures forall i :: 0 <= i < |args| ==> Formats(args)[i] == if args[i].StringE? then args[i].text else "{}"
    decreases |args|
  {
    if args != [] {
      var n := |args| - 1;
      PrintedValues(args[..n]);
      RestSnoc(args[..n], args[n]);
      assert args == args[..n] + [args[n]];
    }
  }
}
