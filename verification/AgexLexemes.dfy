/** Which texts stand for which tokens, by the lexical rules alone, and the proof
    that the scanner computes exactly that. */
module AgexLexemes {
  import opened AgexAst
  import opened AgexLexer
  import opened AgexLexical
  import opened Wrappers

  // --------------------------------------------------------------- lexemes

  ghost predicate LineCommentAt(s: string, n: nat) {
    |s| >= 2 && s[0] == '/' && s[1] == '/' && Run(s, 0, n, InLine)
  }

  /** Up to the first closing mark; without one, all but the last character. */
  ghost predicate BlockCommentAt(s: string, n: nat) {
    && OpensComment(s)
    && if n >= 4 && ClosesAt(s, n - 2) then forall k :: 2 <= k < n - 2 ==> !ClosesAt(s, k)
       else (forall k :: 2 <= k ==> !ClosesAt(s, k)) && n == if |s| == 2 then 2 else |s| - 1
  }

  ghost predicate WordAt(s: string, n: nat, t: Token) {
    && AWord(s, n) && t.value == s[..n]
    && if Keyword(t.ty) then s[..n] == Spelling(t.ty)
       else t.Is(Ident) && forall ty :: Keyword(ty) ==> s[..n] != Spelling(ty)
  }

  ghost predicate NumberAt(s: string, n: nat, t: Token) {
    exists d: nat, f: nat ::
      Number(s, d, f, n) && t == Token(if f > d then FloatLiteral else IntLiteral, s[..n])
  }

  ghost predicate StringAt(s: string, n: nat, t: Token) {
    exists ps, rest :: StringOf(s, n, t, ps, rest)
  }

  ghost predicate StringOf(s: string, n: nat, t: Token, ps: seq<Piece>, rest: string) {
    && s == "\"" + Written(ps) + rest && WellQuoted(ps, '"') && rest != "" && rest[0] == '"'
    && t == Token(StringLiteral, Meaning(ps)) && n == |Written(ps)| + 2
  }

  ghost predicate CharAt(s: string, n: nat, t: Token) {
    exists ps, rest :: CharOf(s, n, t, ps, rest)
  }

  ghost predicate CharOf(s: string, n: nat, t: Token, ps: seq<Piece>, rest: string) {
    && s == "'" + Written(ps) + rest && WellQuoted(ps, '\'') && QuoteEnds(rest, '\'')
    && t == Token(CharLiteral, if rest == "\\" then Meaning(ps) + "\\" else Meaning(ps))
    && n == if rest == "" then |Written(ps)| + 1 else |Written(ps)| + 2
  }

  ghost predicate MarkAt(s: string, n: nat, t: Token) {
    && Special(s) && Starts(s, t.ty) && t.value == Spelling(t.ty) && n == |Spelling(t.ty)|
    && forall u :: Starts(s, u) ==> |Spelling(u)| <= n
  }

  /** The text starts with `n` characters that are the token `t`, or nothing. */
  ghost predicate Lexeme(s: string, n: nat, t: Option<Token>) {
    match t
    case None => (s != [] && s[0] in BLANKS && n == 1) || LineCommentAt(s, n) || BlockCommentAt(s, n)
    case Some(tok) =>
      WordAt(s, n, tok) || NumberAt(s, n, tok) || StringAt(s, n, tok) || CharAt(s, n, tok) || MarkAt(s, n, tok)
  }

  /** The text starts with no lexeme. */
  ghost predicate ErrorAt(s: string, e: LexError) {
    || (e.UnterminatedString? && exists ps, rest :: OpenString(s, ps, rest))
    || (Special(s) && e == UnexpectedChar(s[0]) && forall u :: !Starts(s, u))
  }

  ghost predicate OpenString(s: string, ps: seq<Piece>, rest: string) {
    s == "\"" + Written(ps) + rest && WellQuoted(ps, '"') && (rest == "" || rest == "\\")
  }

  function StepOf(n: nat, t: Option<Token>): Step {
    match t case None => Skip(n) case Some(tok) => Emit(tok, n)
  }

  // ------------------------------------------------- lexemes are what is scanned

  lemma BlankOrComment(s: string, n: nat)
    requires s != [] && Lexeme(s, n, None)
    ensures NextStep(s) == Skip(n)
  {
    if s[0] in BLANKS && n == 1 {
      BlankSkipped(s);
    } else if LineCommentAt(s, n) {
      LineComment(s, n);
    } else if n >= 4 && ClosesAt(s, n - 2) {
      CommentTerminated(s, n - 2);
    } else {
      CommentUnterminated(s);
    }
  }

  lemma WordRight(s: string, n: nat, t: Token)
    requires WordAt(s, n, t)
    ensures NextStep(s) == Emit(t, n)
  {
    if Keyword(t.ty) { KeywordToken(s, n, t.ty); } else { NameToken(s, n); }
  }

  lemma NumberRight(s: string, n: nat, t: Token)
    requires NumberAt(s, n, t)
    ensures s != [] && NextStep(s) == Emit(t, n)
  {
    var d: nat, f: nat :| Number(s, d, f, n) && t == Token(if f > d then FloatLiteral else IntLiteral, s[..n]);
    NumberToken(s, d, f, n);
  }

  lemma QuotedRight(s: string, n: nat, t: Token)
    requires StringAt(s, n, t) || CharAt(s, n, t)
    ensures s != [] && NextStep(s) == Emit(t, n)
  {
    if StringAt(s, n, t) {
      var ps, rest :| StringOf(s, n, t, ps, rest);
      StringToken(ps, rest);
    } else {
      var ps, rest :| CharOf(s, n, t, ps, rest);
      CharToken(ps, rest);
    }
  }

  lemma LexemeRight(s: string, n: nat, t: Option<Token>)
    requires s != [] && Lexeme(s, n, t)
    ensures NextStep(s) == StepOf(n, t)
  {
    match t
    case None => BlankOrComment(s, n);
    case Some(tok) =>
      if WordAt(s, n, tok) {
        WordRight(s, n, tok);
      } else if NumberAt(s, n, tok) {
        NumberRight(s, n, tok);
      } else if MarkAt(s, n, tok) {
        MarkToken(s, tok.ty);
      } else {
        QuotedRight(s, n, tok);
      }
  }

  lemma ErrorRight(s: string, e: LexError)
    requires s != [] && ErrorAt(s, e)
    ensures NextStep(s) == Bad(e)
  {
    if e.UnterminatedString? {
      var ps, rest :| OpenString(s, ps, rest);
      StringToken(ps, rest);
    } else {
      UnknownChar(s);
    }
  }

  // --------------------------------------------- whatever is scanned is a lexeme

  /** The run from `i` on has an end. */
  lemma {:induction false} RunExists(s: string, i: nat, p: char -> bool) returns (j: nat)
    requires i <= |s|
    ensures Run(s, i, j, p)
    decreases |s| - i
  {
    j := i;
    if i < |s| && p(s[i]) { j := RunExists(s, i + 1, p); }
  }

  lemma WordFound(s: string)
    requires s != [] && Wordish(s[0]) && !('0' <= s[0] <= '9')
    ensures NextStep(s).Emit? && WordAt(s, NextStep(s).n, NextStep(s).tok)
  {
    var n := RunExists(s, 0, Wordish);
    WordStep(s, n);
    LookupSpells(s[..n]);
    if Lookup(s[..n]) == Ident {
      forall ty | Keyword(ty) ensures s[..n] != Spelling(ty) { LookupIff(s[..n], ty); }
    }
  }

  lemma NumberFound(s: string)
    requires s != [] && '0' <= s[0] <= '9'
    ensures NextStep(s).Emit? && NumberAt(s, NextStep(s).n, NextStep(s).tok)
  {
    var d := RunExists(s, 0, Digitish);
    var f := d;
    if d + 1 < |s| && s[d] == '.' && '0' <= s[d + 1] <= '9' { f := RunExists(s, d + 1, Digitish); }
    var n := RunExists(s, f, Letterish);
    NumberToken(s, d, f, n);
    assert Number(s, d, f, n) && n == NextStep(s).n;
  }

  lemma StringFound(s: string)
    requires s != [] && s[0] == '"'
    ensures match NextStep(s)
      case Emit(t, n) => StringAt(s, n, t)
      case Bad(e) => ErrorAt(s, e)
      case Skip(_) => false
  {
    var ps, rest := SplitQuoted(s[1..], '"');
    assert s == "\"" + Written(ps) + rest;
    StringToken(ps, rest);
    if rest != "" && rest[0] == '"' {
      assert StringOf(s, NextStep(s).n, NextStep(s).tok, ps, rest);
    } else {
      assert OpenString(s, ps, rest);
    }
  }

  lemma CharFound(s: string)
    requires s != [] && s[0] == '\''
    ensures NextStep(s).Emit? && CharAt(s, NextStep(s).n, NextStep(s).tok)
  {
    var ps, rest := SplitQuoted(s[1..], '\'');
    assert s == "'" + Written(ps) + rest;
    CharToken(ps, rest);
    assert CharOf(s, NextStep(s).n, NextStep(s).tok, ps, rest);
  }

  lemma CommentFound(s: string)
    requires |s| >= 2 && s[0] == '/' && (s[1] == '/' || s[1] == '*')
    ensures NextStep(s).Skip? && Lexeme(s, NextStep(s).n, None)
  {
    if s[1] == '/' {
      var j := RunExists(s, 0, InLine);
      LineComment(s, j);
    } else if j: nat :| 2 <= j && ClosesAt(s, j) {
      FirstClosing(s, 2, j);
    } else {
      CommentUnterminated(s);
    }
  }

  lemma {:induction false} FirstClosing(s: string, i: nat, j: nat)
    requires OpensComment(s) && 2 <= i <= j && ClosesAt(s, j) && forall k :: 2 <= k < i ==> !ClosesAt(s, k)
    ensures NextStep(s).Skip? && BlockCommentAt(s, NextStep(s).n)
    decreases j - i
  {
    if ClosesAt(s, i) { CommentTerminated(s, i); } else { FirstClosing(s, i + 1, j); }
  }

  /** The mark read is one the text starts with, and none is longer. */
  lemma MarkFound(s: string)
    requires Special(s)
    ensures match NextStep(s)
      case Emit(t, n) => MarkAt(s, n, t)
      case Bad(e) => ErrorAt(s, e)
      case Skip(_) => false
  {
    if ty :| Starts(s, ty) {
      var best := Longest(s, ty);
      MarkToken(s, best);
    } else {
      UnknownChar(s);
    }
  }

  lemma Longest(s: string, ty: TokenType) returns (best: TokenType)
    requires Starts(s, ty)
    ensures Starts(s, best) && forall u :: Starts(s, u) ==> |Spelling(u)| <= |Spelling(best)|
  {
    forall u | Starts(s, u) ensures |Spelling(u)| <= 3 { MarkLength(u); }
    if u :| Starts(s, u) && |Spelling(u)| == 3 {
      best := u;
    } else if u :| Starts(s, u) && |Spelling(u)| == 2 {
      best := u;
    } else {
      best := ty;
    }
  }

  /** A text starts in one of seven ways. */
  lemma StartKinds(s: string)
    requires s != []
    ensures || s[0] in BLANKS || (Wordish(s[0]) && !('0' <= s[0] <= '9')) || '0' <= s[0] <= '9'
            || s[0] == '"' || s[0] == '\'' || Special(s) || (|s| >= 2 && s[0] == '/' && (s[1] == '/' || s[1] == '*'))
  {
  }

  lemma StepFound(s: string)
    requires s != []
    ensures match NextStep(s)
      case Skip(n) => Lexeme(s, n, None)
      case Emit(t, n) => Lexeme(s, n, Some(t))
      case Bad(e) => ErrorAt(s, e)
  {
    StartKinds(s);
    if s[0] in BLANKS {
      BlankSkipped(s);
    } else if '0' <= s[0] <= '9' {
      NumberFound(s);
    } else if Wordish(s[0]) {
      WordFound(s);
    } else if s[0] == '"' {
      StringFound(s);
    } else if s[0] == '\'' {
      CharFound(s);
    } else if Special(s) {
      MarkFound(s);
    } else {
      CommentFound(s);
    }
  }

  // ----------------------------------------------------------- whole texts

  /** The text is a sequence of lexemes with these tokens, and the end of input. */
  ghost predicate Lexed(s: string, toks: seq<Token>)
    decreases |s|
  {
    if |s| == 0 then toks == [Token(Eof, "")] else exists n: nat, t: Option<Token> :: LexedAt(s, toks, n, t)
  }

  ghost predicate LexedAt(s: string, toks: seq<Token>, n: nat, t: Option<Token>)
    decreases |s|, 0
  {
    && 0 < n <= |s| && Lexeme(s, n, t)
    && match t
       case None => Lexed(s[n..], toks)
       case Some(tok) => toks != [] && toks[0] == tok && Lexed(s[n..], toks[1..])
  }

  /** After some lexemes the text goes on with none. */
  ghost predicate Unlexable(s: string, e: LexError)
    decreases |s|
  {
    s != "" && (ErrorAt(s, e) || exists n: nat, t: Option<Token> :: UnlexableAt(s, e, n, t))
  }

  ghost predicate UnlexableAt(s: string, e: LexError, n: nat, t: Option<Token>)
    decreases |s|, 0
  {
    0 < n <= |s| && Lexeme(s, n, t) && Unlexable(s[n..], e)
  }

  lemma FirstLexeme(s: string, toks: seq<Token>) returns (n: nat, t: Option<Token>)
    requires s != "" && Lexed(s, toks)
    ensures LexedAt(s, toks, n, t)
  {
    n, t :| LexedAt(s, toks, n, t);
  }

  lemma FirstOfFailing(s: string, e: LexError) returns (n: nat, t: Option<Token>)
    requires Unlexable(s, e) && !ErrorAt(s, e)
    ensures UnlexableAt(s, e, n, t)
  {
    n, t :| UnlexableAt(s, e, n, t);
  }

  /** A text is tokenized to exactly the tokens of its lexemes. */
  lemma {:induction false} TokensIff(s: string, toks: seq<Token>)
    ensures Lex(s) == Tokens(toks) <==> Lexed(s, toks)
    decreases |s|
  {
    if s != "" {
      StepFound(s);
      if Lexed(s, toks) {
        var n, t := FirstLexeme(s, toks);
        LexemeRight(s, n, t);
        TokensIff(s[n..], if t.None? then toks else toks[1..]);
        assert t.Some? ==> [t.value] + toks[1..] == toks;
      }
      if Lex(s) == Tokens(toks) { LexedStep(s, toks); }
    }
  }

  lemma {:induction false} LexedStep(s: string, toks: seq<Token>)
    requires s != "" && Lex(s) == Tokens(toks)
    ensures Lexed(s, toks)
    decreases |s|, 0
  {
    StepFound(s);
    match NextStep(s)
    case Skip(n) =>
      TokensIff(s[n..], toks);
      assert LexedAt(s, toks, n, None);
    case Emit(t, n) =>
      TokensIff(s[n..], toks[1..]);
      assert LexedAt(s, toks, n, Some(t));
  }

  /** and refused with an error exactly when some lexemes lead to it. */
  lemma {:induction false} FailureIff(s: string, e: LexError)
    ensures Lex(s) == Failed(e) <==> Unlexable(s, e)
    decreases |s|
  {
    if s != "" {
      StepFound(s);
      if ErrorAt(s, e) {
        ErrorRight(s, e);
      } else if Unlexable(s, e) {
        var n, t := FirstOfFailing(s, e);
        LexemeRight(s, n, t);
        FailureIff(s[n..], e);
      }
      if Lex(s) == Failed(e) { UnlexableStep(s, e); }
    }
  }

  lemma {:induction false} UnlexableStep(s: string, e: LexError)
    requires s != "" && Lex(s) == Failed(e)
    ensures Unlexable(s, e)
    decreases |s|, 0
  {
    StepFound(s);
    match NextStep(s)
    case Skip(n) =>
      FailureIff(s[n..], e);
      assert UnlexableAt(s, e, n, None);
    case Emit(t, n) =>
      FailureIff(s[n..], e);
      assert UnlexableAt(s, e, n, Some(t));
    case Bad(_) =>
  }
}
