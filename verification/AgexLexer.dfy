/** The agex lexer: one step on the remaining characters, and the loop. */
module AgexLexer {
  import opened AgexAst
  import opened Wrappers

  datatype LexError = UnexpectedChar(c: char) | UnterminatedString

  datatype LexResult = Tokens(toks: seq<Token>) | Failed(error: LexError)

  /** What the head of the text is: blanks and comments, a token, or an error. */
  datatype Step = Skip(n: nat) | Emit(tok: Token, n: nat) | Bad(error: LexError)

  // ------------------------------------------------------- character classes

  predicate IsDigit(c: char) {
    '0' <= c <= '9'
  }

  predicate IsAlpha(c: char) {
    'a' <= c <= 'z' || 'A' <= c <= 'Z'
  }

  predicate IsIdentStart(c: char) {
    IsAlpha(c) || c == '_'
  }

  predicate IsIdentPart(c: char) {
    IsAlpha(c) || IsDigit(c) || c == '_'
  }

  /** The characters with the Unicode property White_Space. */
  predicate IsWhitespace(c: char) {
    || '\U{0009}' <= c <= '\U{000D}' || c == ' ' || c == '\U{0085}' || c == '\U{00A0}'
    || c == '\U{1680}' || '\U{2000}' <= c <= '\U{200A}' || c == '\U{2028}' || c == '\U{2029}'
    || c == '\U{202F}' || c == '\U{205F}' || c == '\U{3000}'
  }

  /** The character classes the scanning loops run over. */
  datatype Class = Digits | Alnum | IdentPart | Line

  predicate InClass(k: Class, c: char) {
    match k
    case Digits => IsDigit(c) || c == '_'
    case Alnum => IsAlpha(c) || IsDigit(c)
    case IdentPart => IsIdentPart(c)
    case Line => c != '\n'
  }

  /** Length of the longest prefix of `s` in class `k`. */
  function Span(k: Class, s: string): (n: nat)
    ensures n <= |s|
  {
    if s != [] && InClass(k, s[0]) then 1 + Span(k, s[1..]) else 0
  }

  // ------------------------------------------------------------------ pieces

  const BINDING_WORDS: seq<(string, TokenType)> := [
    ("let", Let), ("const", Const), ("var", Var), ("fn", Fn), ("return", Return),
    ("if", If), ("else", Else), ("for", For), ("in", In), ("range", Range)]

  const TYPE_WORDS: seq<(string, TokenType)> := [
    ("match", Match), ("class", Class), ("data", Data), ("sealed", Sealed),
    ("interface", Interface), ("object", Object), ("driver", Driver), ("async", Async)]

  const OTHER_WORDS: seq<(string, TokenType)> := [
    ("await", Await), ("unsafe", Unsafe), ("extern", Extern), ("import", Import),
    ("print", Print), ("interrupt", Interrupt), ("capability", Capability)]

  const KEYWORDS: seq<(string, TokenType)> := BINDING_WORDS + TYPE_WORDS + OTHER_WORDS

  function Find(table: seq<(string, TokenType)>, v: string): TokenType {
    if table == [] then Ident
    else if table[0].0 == v then table[0].1
    else Find(table[1..], v)
  }

  function Lookup(v: string): TokenType {
    Find(KEYWORDS, v)
  }

  predicate HasFraction(s: string) {
    var d := Span(Digits, s);
    d + 1 < |s| && s[d] == '.' && IsDigit(s[d + 1])
  }

  /** Length of a number with its fraction, if any, but without the type suffix. */
  function MantissaLen(s: string): (n: nat)
    ensures n <= |s|
  {
    var d := Span(Digits, s);
    if HasFraction(s) then d + 1 + Span(Digits, s[d + 1..]) else d
  }

  function NumberLen(s: string): (n: nat)
    ensures n <= |s|
  {
    var m := MantissaLen(s);
    m + Span(Alnum, s[m..])
  }

  function Escape(c: char): char {
    if c == 'n' then '\n' else if c == 't' then '\t' else if c == 'r' then '\r'
    else if c == '0' then '\0' else c
  }

  /** The text up to the closing quote `q` (or the end) and its length in the source. */
  function Quoted(s: string, q: char): (r: (string, nat))
    ensures r.1 <= |s|
    ensures r.1 < |s| ==> s[r.1] == q
  {
    if s == [] || s[0] == q then ("", 0)
    else if s[0] == '\\' && |s| > 1 then
      var (t, n) := Quoted(s[2..], q);
      ([Escape(s[1])] + t, n + 2)
    else
      var (t, n) := Quoted(s[1..], q);
      ([s[0]] + t, n + 1)
  }

  /** Where a block comment scanned from `i` ends: after the first closing mark, or
      where two characters no longer follow (see CommentUnterminated). */
  function CommentEnd(s: string, i: nat): (r: nat)
    requires i <= |s|
    ensures i <= r <= |s|
    decreases |s| - i
  {
    if i + 1 < |s| then
      if s[i] == '*' && s[i + 1] == '/' then i + 2 else CommentEnd(s, i + 1)
    else i
  }

  function TwoOp(a: char, b: char): Option<TokenType> {
    match (a, b)
    case ('-', '>') => Some(Arrow)
    case ('=', '>') => Some(FatArrow)
    case ('=', '=') => Some(Eq)
    case ('!', '=') => Some(Neq)
    case ('<', '=') => Some(LE)
    case ('>', '=') => Some(GE)
    case ('&', '&') => Some(And)
    case ('|', '|') => Some(Or)
    case ('+', '=') => Some(PlusEq)
    case ('-', '=') => Some(MinusEq)
    case ('*', '=') => Some(StarEq)
    case ('/', '=') => Some(SlashEq)
    case _ => None
  }

  function OneOp(c: char): Option<TokenType> {
    match c
    case '{' => Some(LBrace)
    case '}' => Some(RBrace)
    case '(' => Some(LParen)
    case ')' => Some(RParen)
    case '[' => Some(LBracket)
    case ']' => Some(RBracket)
    case ',' => Some(Comma)
    case ':' => Some(Colon)
    case ';' => Some(Semicolon)
    case '.' => Some(Dot)
    case '?' => Some(Question)
    case '=' => Some(Assign)
    case '+' => Some(Plus)
    case '-' => Some(Minus)
    case '*' => Some(Star)
    case '/' => Some(Slash)
    case '%' => Some(Percent)
    case '<' => Some(LT)
    case '>' => Some(GT)
    case '!' => Some(Not)
    case '&' => Some(Amp)
    case '|' => Some(Pipe)
    case _ => None
  }

  /** Operators and punctuation, the longest spelling first. */
  function Symbol(s: string): (r: Step)
    requires s != []
    ensures !r.Bad? ==> 0 < r.n <= |s|
  {
    if |s| >= 3 && s[0] == '.' && s[1] == '.' && s[2] == '.' then Emit(Token(Ellipsis, "..."), 3)
    else if |s| >= 2 && TwoOp(s[0], s[1]).Some? then Emit(Token(TwoOp(s[0], s[1]).value, s[..2]), 2)
    else if OneOp(s[0]).Some? then Emit(Token(OneOp(s[0]).value, s[..1]), 1)
    else Bad(UnexpectedChar(s[0]))
  }

  function NextStep(s: string): (r: Step)
    requires s != []
    ensures !r.Bad? ==> 0 < r.n <= |s|
  {
    var c := s[0];
    if IsWhitespace(c) then Skip(1)
    else if c == '/' && |s| > 1 && s[1] == '/' then Skip(Span(Line, s))
    else if c == '/' && |s| > 1 && s[1] == '*' then Skip(CommentEnd(s, 2))
    else if IsDigit(c) then
      var n := NumberLen(s);
      Emit(Token(if HasFraction(s) then FloatLiteral else IntLiteral, s[..n]), n)
    else if c == '"' then
      var (t, n) := Quoted(s[1..], '"');
      if 1 + n == |s| then Bad(UnterminatedString) else Emit(Token(StringLiteral, t), n + 2)
    else if c == '\'' then
      var (t, n) := Quoted(s[1..], '\'');
      Emit(Token(CharLiteral, t), if 1 + n == |s| then n + 1 else n + 2)
    else if IsIdentStart(c) then
      var n := Span(IdentPart, s);
      Emit(Token(Lookup(s[..n]), s[..n]), n)
    else Symbol(s)
  }

  /** `toks` in front of what is still to come. */
  function Prepend(toks: seq<Token>, r: LexResult): LexResult {
    match r
    case Tokens(more) => Tokens(toks + more)
    case Failed(e) => Failed(e)
  }

  function Lex(s: string): LexResult {
    if s == [] then Tokens([Token(Eof, "")])
    else
      match NextStep(s)
      case Skip(n) => Lex(s[n..])
      case Emit(t, n) => Prepend([t], Lex(s[n..]))
      case Bad(e) => Failed(e)
  }

  /** Every successful token list ends in its only end-of-input token. */
  lemma {:induction false} EofLast(s: string)
    requires Lex(s).Tokens?
    ensures EofOnlyLast(Lex(s).toks)
    decreases |s|
  {
    if s != [] {
      match NextStep(s)
      case Skip(n) => EofLast(s[n..]);
      case Emit(t, n) =>
        EofLast(s[n..]);
        NeverEof(s);
        EofAfter(t, Lex(s[n..]).toks);
      case Bad(_) =>
    }
  }

  // ---------------------------------------------------------- block comments

  predicate ClosesAt(s: string, i: nat) {
    i + 1 < |s| && s[i] == '*' && s[i + 1] == '/'
  }

  predicate OpensComment(s: string) {
    |s| >= 2 && s[0] == '/' && s[1] == '*'
  }

  lemma {:induction false} CommentEndAt(s: string, i: nat, j: nat)
    requires i <= j && ClosesAt(s, j) && forall k :: i <= k < j ==> !ClosesAt(s, k)
    ensures CommentEnd(s, i) == j + 2
    decreases j - i
  {
    assert ClosesAt(s, i) <==> i == j;
    if i < j { CommentEndAt(s, i + 1, j); }
  }

  lemma {:induction false} CommentOpen(s: string, i: nat)
    requires i <= |s| && forall k :: i <= k ==> !ClosesAt(s, k)
    ensures CommentEnd(s, i) == if i == |s| then i else |s| - 1
    decreases |s| - i
  {
    assert !ClosesAt(s, i);
    if i + 1 < |s| { CommentOpen(s, i + 1); }
  }

  /** A comment with a closing mark is skipped up to and with the first one. */
  lemma CommentTerminated(s: string, j: nat)
    requires OpensComment(s) && 2 <= j && ClosesAt(s, j) && forall k :: 2 <= k < j ==> !ClosesAt(s, k)
    ensures NextStep(s) == Skip(j + 2)
  {
    CommentEndAt(s, 2, j);
  }

  /** A comment without one is not: its last character is read as program text,
      unless the comment is empty. */
  lemma CommentUnterminated(s: string)
    requires OpensComment(s) && forall k :: 2 <= k ==> !ClosesAt(s, k)
    ensures NextStep(s) == Skip(if |s| == 2 then 2 else |s| - 1)
    ensures NextStep(s) == Skip(|s|) <==> |s| == 2
    ensures |s| > 2 ==> Lex(s) == Lex([s[|s| - 1]])
  {
    CommentOpen(s, 2);
    if |s| > 2 { assert s[|s| - 1..] == [s[|s| - 1]]; }
  }

  lemma {:induction false} FindShort(table: seq<(string, TokenType)>, v: string)
    requires |v| == 1 && forall i :: 0 <= i < |table| ==> |table[i].0| > 1
    ensures Find(table, v) == Ident
  {
    if table != [] { FindShort(table[1..], v); }
  }

  lemma ShortWord(v: string)
    requires |v| == 1
    ensures Lookup(v) == Ident
  {
    FindShort(BINDING_WORDS, v);
    FindShort(TYPE_WORDS, v);
    FindShort(OTHER_WORDS, v);
    FindPlus(BINDING_WORDS, TYPE_WORDS, v);
    FindPlus(BINDING_WORDS + TYPE_WORDS, OTHER_WORDS, v);
  }

  lemma {:induction false} FindPlus(a: seq<(string, TokenType)>, b: seq<(string, TokenType)>, v: string)
    requires Find(a, v) == Ident && Find(b, v) == Ident
    ensures Find(a + b, v) == Ident
  {
    if a == [] {
      assert a + b == b;
    } else {
      assert (a + b)[1..] == a[1..] + b;
      if a[0].0 != v { FindPlus(a[1..], b, v); }
    }
  }

  lemma LetterAlone(c: char)
    requires IsIdentStart(c)
    ensures Lex([c]) == Tokens([Token(Ident, [c]), Token(Eof, "")])
  {
    var s := [c];
    ShortWord(s);
    assert s[1..] == "" && s[..1] == s;
    assert Span(IdentPart, s) == 1;
    assert NextStep(s) == Emit(Token(Ident, s), 1);
  }

  /** The input: a comment of one letter that never ends is an identifier. */
  lemma CommentReadAsName()
    ensures Lex("/*a") == Tokens([Token(Ident, "a"), Token(Eof, "")])
  {
    CommentUnterminated("/*a");
    LetterAlone('a');
  }

  predicate EofOnlyLast(ts: seq<Token>) {
    && ts != [] && ts[|ts| - 1].Is(Eof)
    && forall i :: 0 <= i < |ts| - 1 ==> !ts[i].Is(Eof)
  }

  lemma EofAfter(t: Token, ts: seq<Token>)
    requires EofOnlyLast(ts) && !t.Is(Eof)
    ensures EofOnlyLast([t] + ts)
  {
  }

  lemma NeverEof(s: string)
    requires s != [] && NextStep(s).Emit?
    ensures !NextStep(s).tok.Is(Eof)
  {
    var word := s[..Span(IdentPart, s)];
    KeywordsNotEof(word);
    SymbolNotEof(s);
  }

  lemma SymbolNotEof(s: string)
    requires s != []
    ensures Symbol(s).Emit? ==> !Symbol(s).tok.Is(Eof)
  {
    if |s| >= 2 { TwoOpNotEof(s[0], s[1]); }
    OneOpNotEof(s[0]);
  }

  lemma TwoOpNotEof(a: char, b: char)
    ensures TwoOp(a, b) != Some(Eof)
  {
  }

  lemma OneOpNotEof(c: char)
    ensures OneOp(c) != Some(Eof)
  {
  }

  predicate NamesNoEof(table: seq<(string, TokenType)>) {
    forall i :: 0 <= i < |table| ==> table[i].1 != Eof
  }

  lemma BindingNotEof()
    ensures NamesNoEof(BINDING_WORDS)
  {
  }

  lemma TypeNotEof()
    ensures NamesNoEof(TYPE_WORDS)
  {
  }

  lemma OtherNotEof()
    ensures NamesNoEof(OTHER_WORDS)
  {
  }

  lemma PlusNotEof(a: seq<(string, TokenType)>, b: seq<(string, TokenType)>)
    requires NamesNoEof(a) && NamesNoEof(b)
    ensures NamesNoEof(a + b)
  {
  }

  lemma KeywordsNotEof(v: string)
    ensures Lookup(v) != Eof
  {
    BindingNotEof();
    TypeNotEof();
    OtherNotEof();
    PlusNotEof(BINDING_WORDS, TYPE_WORDS);
    PlusNotEof(BINDING_WORDS + TYPE_WORDS, OTHER_WORDS);
    FindNotEof(KEYWORDS, v);
  }

  lemma {:induction false} FindNotEof(table: seq<(string, TokenType)>, v: string)
    requires NamesNoEof(table)
    ensures Find(table, v) != Eof
  {
    if table != [] { FindNotEof(table[1..], v); }
  }

  // --------------------------------------------------------------- the loops

  lemma SpanStep(k: Class, src: string, i: nat)
    requires i < |src|
    ensures Span(k, src[i..]) == if InClass(k, src[i]) then 1 + Span(k, src[i + 1..]) else 0
  {
    assert src[i..][1..] == src[i + 1..];
  }

  method ScanWhile(src: string, i: nat, k: Class) returns (j: nat, text: string)
    requires i <= |src|
    ensures j == i + Span(k, src[i..]) && i <= j <= |src| && text == src[i..j]
  {
    j, text := i, "";
    while j < |src| && InClass(k, src[j])
      invariant i <= j <= |src| && text == src[i..j]
      invariant j + Span(k, src[j..]) == i + Span(k, src[i..])
    {
      SpanStep(k, src, j);
      text := text + [src[j]];
      j := j + 1;
    }
    if j < |src| { SpanStep(k, src, j); }
  }

  method ScanMantissa(src: string, start: nat) returns (i: nat, num: string, isFloat: bool)
    requires start < |src|
    ensures var s := src[start..];
      && i == start + MantissaLen(s) && start <= i <= |src| && num == src[start..i] && isFloat == HasFraction(s)
  {
    ghost var s := src[start..];
    isFloat := false;
    i, num := ScanWhile(src, start, Digits);
    if i < |src| && src[i] == '.' && i + 1 < |src| && IsDigit(src[i + 1]) {
      isFloat := true;
      num := num + ".";
      i := i + 1;
      assert src[i..] == s[i - start..];
      var j, fraction := ScanWhile(src, i, Digits);
      num := num + fraction;
      i := j;
    }
  }

  method ScanNumber(src: string, start: nat) returns (i: nat, num: string, isFloat: bool)
    requires start < |src|
    ensures var s := src[start..];
      && i == start + NumberLen(s) && num == s[..NumberLen(s)] && isFloat == HasFraction(s)
  {
    i, num, isFloat := ScanMantissa(src, start);
    assert src[i..] == src[start..][i - start..];
    var j, suffix := ScanWhile(src, i, Alnum);
    num := num + suffix;
    i := j;
  }

  /** The character that a turn of the loop inside a literal appends, and how far it goes. */
  function QuotedChar(src: string, i: nat): (char, nat)
    requires i < |src|
  {
    if src[i] == '\\' && i + 1 < |src| then (Escape(src[i + 1]), 2) else (src[i], 1)
  }

  lemma QuotedStep(src: string, i: nat, q: char, s: string)
    requires i < |src| && src[i] != q
    ensures var (c, n) := QuotedChar(src, i);
      && s + Quoted(src[i..], q).0 == (s + [c]) + Quoted(src[i + n..], q).0
      && Quoted(src[i..], q).1 == n + Quoted(src[i + n..], q).1
  {
    var rest := src[i..];
    assert rest[1..] == src[i + 1..];
    if i + 1 < |src| { assert rest[2..] == src[i + 2..]; }
    var (c, n) := QuotedChar(src, i);
    assert Quoted(rest, q).0 == [c] + Quoted(src[i + n..], q).0;
    assert s + ([c] + Quoted(src[i + n..], q).0) == (s + [c]) + Quoted(src[i + n..], q).0;
  }

  lemma QuotedEnd(src: string, i: nat, q: char, s: string)
    requires i <= |src| && (i == |src| || src[i] == q)
    ensures s + Quoted(src[i..], q).0 == s && Quoted(src[i..], q).1 == 0
  {
  }

  /** The loop inside string and character literals. */
  method ScanQuoted(src: string, start: nat, q: char) returns (i: nat, s: string)
    requires start <= |src|
    ensures start <= i <= |src|
    ensures s == Quoted(src[start..], q).0 && i == start + Quoted(src[start..], q).1
  {
    hide Quoted;
    i, s := start, "";
    assert s + Quoted(src[i..], q).0 == Quoted(src[start..], q).0;
    while i < |src| && src[i] != q
      invariant start <= i <= |src|
      invariant s + Quoted(src[i..], q).0 == Quoted(src[start..], q).0
      invariant i - start + Quoted(src[i..], q).1 == Quoted(src[start..], q).1
      decreases |src| - i
    {
      QuotedStep(src, i, q, s);
      if src[i] == '\\' && i + 1 < |src| {
        s := s + [Escape(src[i + 1])];
        i := i + 2;
      } else {
        s := s + [src[i]];
        i := i + 1;
      }
    }
    QuotedEnd(src, i, q, s);
  }

  method SkipComment(src: string, start: nat) returns (i: nat)
    requires start + 1 < |src|
    ensures i == start + CommentEnd(src[start..], 2) && start < i <= |src|
  {
    ghost var s := src[start..];
    i := start + 2;
    while i + 1 < |src| && !(src[i] == '*' && src[i + 1] == '/')
      invariant start + 2 <= i <= |src|
      invariant CommentEnd(s, i - start) == CommentEnd(s, 2)
    {
      i := i + 1;
    }
    if i + 1 < |src| { i := i + 2; }
  }

  /** A string or character literal at `src[i]`. */
  method ScanLiteral(src: string, i: nat) returns (r: Step)
    requires i < |src| && (src[i] == '"' || src[i] == '\'')
    ensures r == NextStep(src[i..])
  {
    assert src[i..][1..] == src[i + 1..];
    var j, text := ScanQuoted(src, i + 1, src[i]);
    if src[i] == '"' {
      if j >= |src| {
        return Bad(UnterminatedString);
      }
      return Emit(Token(StringLiteral, text), j + 1 - i);
    }
    if j < |src| { j := j + 1; }
    return Emit(Token(CharLiteral, text), j - i);
  }

  /** One turn of the main loop: the branch taken at `src[i]`. */
  method ScanStep(src: string, i: nat) returns (r: Step)
    requires i < |src|
    ensures r == NextStep(src[i..])
  {
    var c := src[i];
    ghost var s := src[i..];
    if IsWhitespace(c) {
      return Skip(1);
    }
    if c == '/' && i + 1 < |src| && src[i + 1] == '/' {
      var j, _ := ScanWhile(src, i, Line);
      return Skip(j - i);
    }
    if c == '/' && i + 1 < |src| && src[i + 1] == '*' {
      var j := SkipComment(src, i);
      return Skip(j - i);
    }
    if IsDigit(c) {
      var j, num, isFloat := ScanNumber(src, i);
      return Emit(Token(if isFloat then FloatLiteral else IntLiteral, num), j - i);
    }
    if c == '"' || c == '\'' {
      r := ScanLiteral(src, i);
      return;
    }
    if IsIdentStart(c) {
      var j, ident := ScanWhile(src, i, IdentPart);
      assert ident == s[..j - i];
      return Emit(Token(Lookup(ident), ident), j - i);
    }
    return Symbol(src[i..]);
  }

  method Tokenize(src: string) returns (r: LexResult)
    ensures r == Lex(src)
  {
    var tokens: seq<Token> := [];
    var i := 0;
    while i < |src|
      invariant 0 <= i <= |src|
      invariant Prepend(tokens, Lex(src[i..])) == Lex(src)
    {
      var step := ScanStep(src, i);
      ghost var s := src[i..];
      match step {
        case Skip(n) =>
          i := i + n;
          assert s[n..] == src[i..];
        case Emit(t, n) =>
          i := i + n;
          assert s[n..] == src[i..];
          PrependTwice(tokens, [t], Lex(src[i..]));
          tokens := tokens + [t];
        case Bad(e) =>
          return Failed(e);
      }
    }
    return Tokens(tokens + [Token(Eof, "")]);
  }

  lemma PrependTwice(a: seq<Token>, b: seq<Token>, r: LexResult)
    ensures Prepend(a, Prepend(b, r)) == Prepend(a + b, r)
  {
    if r.Tokens? { assert a + (b + r.toks) == a + b + r.toks; }
  }
}
