/** The lexical rules of agex, written without reference to the scanner, and the
    proof that each turn of the scanner follows them. */
module AgexLexical {
  import opened AgexAst
  import opened AgexLexer
  import opened Wrappers

  // -------------------------------------------------------------- runs of text

  predicate Digitish(c: char) {
    '0' <= c <= '9' || c == '_'
  }

  predicate Letterish(c: char) {
    'a' <= c <= 'z' || 'A' <= c <= 'Z' || '0' <= c <= '9'
  }

  predicate Wordish(c: char) {
    Letterish(c) || c == '_'
  }

  /** `s[i..j]` is the longest run from `i` on of characters with a property. */
  predicate Run(s: string, i: nat, j: nat, p: char -> bool) {
    && i <= j <= |s| && (forall k :: i <= k < j ==> p(s[k]))
    && (j < |s| ==> !p(s[j]))
  }

  lemma {:induction false} SpanRun(k: Class, s: string, n: nat, p: char -> bool)
    requires Run(s, 0, n, p) && forall c :: p(c) == InClass(k, c)
    ensures Span(k, s) == n
    decreases n
  {
    if n > 0 {
      assert p(s[0]);
      forall i | 0 <= i < n - 1 ensures p(s[1..][i]) { assert s[1..][i] == s[i + 1]; }
      SpanRun(k, s[1..], n - 1, p);
    }
  }

  lemma SpanFrom(k: Class, s: string, i: nat, j: nat, p: char -> bool)
    requires Run(s, i, j, p) && forall c :: p(c) == InClass(k, c)
    ensures Span(k, s[i..]) == j - i
  {
    forall m | 0 <= m < j - i ensures p(s[i..][m]) { assert s[i..][m] == s[i + m]; }
    SpanRun(k, s[i..], j - i, p);
  }

  // ------------------------------------------------------ blanks and comments

  /** The characters with the Unicode property White_Space. */
  const BLANKS: string :=
    "\U{0009}\U{000A}\U{000B}\U{000C}\U{000D} \U{0085}\U{00A0}\U{1680}" +
    "\U{2000}\U{2001}\U{2002}\U{2003}\U{2004}\U{2005}\U{2006}\U{2007}\U{2008}\U{2009}\U{200A}" +
    "\U{2028}\U{2029}\U{202F}\U{205F}\U{3000}"

  lemma BlankIs(c: char)
    ensures IsWhitespace(c) <==> c in BLANKS
  {
  }

  lemma BlankSkipped(s: string)
    requires s != [] && s[0] in BLANKS
    ensures NextStep(s) == Skip(1)
  {
    BlankIs(s[0]);
  }

  predicate InLine(c: char) {
    c != '\n'
  }

  /** A line comment reaches up to the first newline, or to the end of the text. */
  lemma LineComment(s: string, j: nat)
    requires |s| >= 2 && s[0] == '/' && s[1] == '/' && Run(s, 0, j, InLine)
    ensures NextStep(s) == Skip(j)
  {
    SpanRun(Line, s, j, InLine);
  }

  // ------------------------------------------------------------------ spelling

  /** How each keyword, operator and punctuation mark is spelled. */
  function Spelling(ty: TokenType): string {
    match ty
    case Let => "let" case Const => "const" case Var => "var" case Fn => "fn" case Return => "return"
    case If => "if" case Else => "else" case For => "for" case In => "in" case Range => "range"
    case Match => "match" case Class => "class" case Data => "data" case Sealed => "sealed"
    case Interface => "interface" case Object => "object" case Driver => "driver" case Async => "async"
    case Await => "await" case Unsafe => "unsafe" case Extern => "extern" case Import => "import"
    case Print => "print" case Interrupt => "interrupt" case Capability => "capability"
    case Ellipsis => "..."
    case Arrow => "->" case FatArrow => "=>" case Eq => "==" case Neq => "!=" case LE => "<=" case GE => ">="
    case And => "&&" case Or => "||" case PlusEq => "+=" case MinusEq => "-=" case StarEq => "*=" case SlashEq => "/="
    case LBrace => "{" case RBrace => "}" case LParen => "(" case RParen => ")" case LBracket => "["
    case RBracket => "]"
    case Comma => "," case Colon => ":" case Semicolon => ";" case Dot => "." case Question => "?" case Assign => "="
    case Plus => "+" case Minus => "-" case Star => "*" case Slash => "/" case Percent => "%" case LT => "<"
    case GT => ">"
    case Not => "!" case Amp => "&" case Pipe => "|"
    case _ => ""
  }

  /** Token types spelled as a word. */
  predicate Keyword(ty: TokenType) {
    match ty
    case Let => true case Const => true case Var => true case Fn => true case Return => true
    case If => true case Else => true case For => true case In => true case Range => true
    case Match => true case Class => true case Data => true case Sealed => true
    case Interface => true case Object => true case Driver => true case Async => true
    case Await => true case Unsafe => true case Extern => true case Import => true
    case Print => true case Interrupt => true case Capability => true
    case _ => false
  }

  /** The keyword that a word would be, from its length and a letter or two. */
  function Guess(v: string): TokenType
    requires |v| >= 2
  {
    if |v| == 2 then if v[0] == 'f' then Fn else if v[1] == 'f' then If else In
    else if |v| == 3 then if v[0] == 'l' then Let else if v[0] == 'v' then Var else For
    else if |v| == 4 then if v[0] == 'e' then Else else Data
    else if |v| == 5 then
      if v[0] == 'r' then Range else if v[0] == 'm' then Match else if v[0] == 'p' then Print
      else if v[1] == 'o' then Const else if v[1] == 'l' then Class else if v[1] == 's' then Async else Await
    else if |v| == 6 then
      if v[0] == 'r' then Return else if v[0] == 's' then Sealed else if v[0] == 'o' then Object
      else if v[0] == 'd' then Driver else if v[0] == 'u' then Unsafe else if v[0] == 'e' then Extern else Import
    else if |v| == 9 then if v[5] == 'f' then Interface else Interrupt
    else Capability
  }

  lemma GuessRight(ty: TokenType)
    requires Keyword(ty)
    ensures |Spelling(ty)| >= 2 && Guess(Spelling(ty)) == ty
  {
  }

  // --------------------------------------------------------- words and keywords

  predicate Spelled(table: seq<(string, TokenType)>) {
    forall i :: 0 <= i < |table| ==> Keyword(table[i].1) && table[i].0 == Spelling(table[i].1)
  }

  lemma BindingSpelled()
    ensures Spelled(BINDING_WORDS)
  {
  }

  lemma TypeSpelled()
    ensures Spelled(TYPE_WORDS)
  {
  }

  lemma OtherSpelled()
    ensures Spelled(OTHER_WORDS)
  {
  }

  lemma PlusSpelled(a: seq<(string, TokenType)>, b: seq<(string, TokenType)>)
    requires Spelled(a) && Spelled(b)
    ensures Spelled(a + b)
  {
  }

  lemma {:induction false} FindSpells(table: seq<(string, TokenType)>, v: string)
    requires Spelled(table)
    ensures Find(table, v) == Ident || (Keyword(Find(table, v)) && v == Spelling(Find(table, v)))
  {
    if table != [] && table[0].0 != v { FindSpells(table[1..], v); }
  }

  lemma LookupSpells(v: string)
    ensures Lookup(v) == Ident || (Keyword(Lookup(v)) && v == Spelling(Lookup(v)))
  {
    AllSpelled();
    FindSpells(KEYWORDS, v);
  }

  lemma {:induction false} FindListed(table: seq<(string, TokenType)>, v: string, i: nat)
    requires i < |table| && table[i].0 == v && Spelled(table)
    ensures Find(table, v) != Ident
  {
    if table[0].0 != v { FindListed(table[1..], v, i - 1); }
  }

  /** Where a keyword stands in the table. */
  function Place(ty: TokenType): nat {
    match ty
    case Let => 0 case Const => 1 case Var => 2 case Fn => 3 case Return => 4
    case If => 5 case Else => 6 case For => 7 case In => 8 case Range => 9
    case Match => 10 case Class => 11 case Data => 12 case Sealed => 13
    case Interface => 14 case Object => 15 case Driver => 16 case Async => 17
    case Await => 18 case Unsafe => 19 case Extern => 20 case Import => 21
    case Print => 22 case Interrupt => 23 case Capability => 24
    case _ => 0
  }

  lemma Placed(ty: TokenType)
    requires Keyword(ty)
    ensures Place(ty) < |KEYWORDS| && KEYWORDS[Place(ty)] == (Spelling(ty), ty)
  {
  }

  /** A word is looked up as a keyword exactly when it is spelled like it. */
  lemma LookupIff(v: string, ty: TokenType)
    requires Keyword(ty)
    ensures Lookup(v) == ty <==> v == Spelling(ty)
  {
    LookupSpells(v);
    if v == Spelling(ty) {
      Placed(ty);
      AllSpelled();
      FindListed(KEYWORDS, v, Place(ty));
      GuessRight(ty);
      GuessRight(Lookup(v));
    }
  }

  lemma AllSpelled()
    ensures Spelled(KEYWORDS)
  {
    BindingSpelled();
    TypeSpelled();
    OtherSpelled();
    PlusSpelled(BINDING_WORDS, TYPE_WORDS);
    PlusSpelled(BINDING_WORDS + TYPE_WORDS, OTHER_WORDS);
  }

  /** A word: the longest run of letters, digits and underscores that starts with no digit. */
  predicate AWord(s: string, n: nat) {
    s != [] && Wordish(s[0]) && !('0' <= s[0] <= '9') && Run(s, 0, n, Wordish)
  }

  lemma WordStep(s: string, n: nat)
    requires AWord(s, n)
    ensures NextStep(s) == Emit(Token(Lookup(s[..n]), s[..n]), n)
  {
    SpanRun(IdentPart, s, n, Wordish);
  }

  /** A word spelled like a keyword is that keyword, */
  lemma KeywordToken(s: string, n: nat, ty: TokenType)
    requires AWord(s, n) && Keyword(ty) && s[..n] == Spelling(ty)
    ensures NextStep(s) == Emit(Token(ty, s[..n]), n)
  {
    WordStep(s, n);
    LookupIff(s[..n], ty);
  }

  /** and any other an identifier. */
  lemma NameToken(s: string, n: nat)
    requires AWord(s, n) && forall ty :: Keyword(ty) ==> s[..n] != Spelling(ty)
    ensures NextStep(s) == Emit(Token(Ident, s[..n]), n)
  {
    WordStep(s, n);
    LookupSpells(s[..n]);
  }

  // -------------------------------------------------------------------- numbers

  /** A number: digits and underscores up to `d`, with a digit behind a point a
      fraction up to `f`, and letters and digits up to `n` as a suffix. */
  predicate Number(s: string, d: nat, f: nat, n: nat) {
    && s != [] && '0' <= s[0] <= '9' && Run(s, 0, d, Digitish)
    && (if d + 1 < |s| && s[d] == '.' && '0' <= s[d + 1] <= '9' then Run(s, d + 1, f, Digitish) else f == d)
    && Run(s, f, n, Letterish)
  }

  lemma NumberParts(s: string, d: nat, f: nat, n: nat)
    requires Number(s, d, f, n)
    ensures Span(Digits, s) == d && MantissaLen(s) == f && NumberLen(s) == n && (HasFraction(s) <==> f > d)
  {
    SpanRun(Digits, s, d, Digitish);
    if d + 1 < |s| && s[d] == '.' && '0' <= s[d + 1] <= '9' { SpanFrom(Digits, s, d + 1, f, Digitish); }
    SpanFrom(Alnum, s, f, n, Letterish);
  }

  lemma NumberToken(s: string, d: nat, f: nat, n: nat)
    requires Number(s, d, f, n)
    ensures NextStep(s) == Emit(Token(if f > d then FloatLiteral else IntLiteral, s[..n]), n)
  {
    NumberParts(s, d, f, n);
  }

  // ---------------------------------------------------------------- quoted text

  /** A character in quotes: as it stands, or behind a backslash. */
  datatype Piece = Bare(c: char) | Escaped(c: char)

  /** How pieces are written, */
  function Source(p: Piece): string {
    match p case Bare(c) => [c] case Escaped(c) => ['\\', c]
  }

  function Written(ps: seq<Piece>): string {
    if ps == [] then "" else Source(ps[0]) + Written(ps[1..])
  }

  /** and what they mean: newline, tab, carriage return and zero have letters, any
      other character stands for itself. */
  function Sense(p: Piece): char {
    match p
    case Bare(c) => c
    case Escaped('n') => '\n'
    case Escaped('t') => '\t'
    case Escaped('r') => '\r'
    case Escaped('0') => '\0'
    case Escaped(c) => c
  }

  function Meaning(ps: seq<Piece>): string {
    if ps == [] then "" else [Sense(ps[0])] + Meaning(ps[1..])
  }

  /** Bare characters are neither the quote nor a backslash. */
  predicate WellQuoted(ps: seq<Piece>, q: char) {
    forall i :: 0 <= i < |ps| && ps[i].Bare? ==> ps[i].c != q && ps[i].c != '\\'
  }

  /** What may end quoted text: the quote, the end of the text, or a last backslash. */
  predicate QuoteEnds(rest: string, q: char) {
    rest == "" || rest[0] == q || rest == "\\"
  }

  lemma {:induction false} QuotedPieces(ps: seq<Piece>, q: char, rest: string)
    requires WellQuoted(ps, q) && QuoteEnds(rest, q) && q != '\\'
    ensures Quoted(Written(ps) + rest, q) ==
      if rest == "\\" then (Meaning(ps) + "\\", |Written(ps)| + 1) else (Meaning(ps), |Written(ps)|)
    decreases |ps|
  {
    if ps == [] {
      assert Written(ps) + rest == rest;
      QuotedRest(q, rest);
    } else {
      forall i | 0 <= i < |ps| - 1 && ps[1..][i].Bare? ensures ps[1..][i].c != q && ps[1..][i].c != '\\' {
        assert ps[1..][i] == ps[i + 1];
      }
      QuotedPieces(ps[1..], q, rest);
      MorePieces(ps, q, rest, Written(ps[1..]) + rest);
      Regrouped(Sense(ps[0]), Meaning(ps[1..]), "\\");
    }
  }

  lemma QuotedRest(q: char, rest: string)
    requires QuoteEnds(rest, q) && q != '\\'
    ensures Quoted(rest, q) == if rest == "\\" then ("\\", 1) else ("", 0)
  {
    if rest == "\\" {
      assert rest[1..] == "" && Quoted("", q) == ("", 0);
      assert [rest[0]] + "" == rest;
    }
  }

  /** One piece more in front. */
  lemma QuotedPiece(p: Piece, q: char, s: string)
    requires q != '\\' && (p.Bare? ==> p.c != q && p.c != '\\')
    ensures Quoted(Source(p) + s, q).0 == [Sense(p)] + Quoted(s, q).0
    ensures Quoted(Source(p) + s, q).1 == |Source(p)| + Quoted(s, q).1
  {
    var t := Source(p) + s;
    if p.Bare? { assert t[1..] == s; } else { assert t[2..] == s; }
  }

  lemma MorePieces(ps: seq<Piece>, q: char, rest: string, t: string)
    requires ps != [] && q != '\\' && (ps[0].Bare? ==> ps[0].c != q && ps[0].c != '\\') && t == Written(ps[1..]) + rest
    ensures Quoted(Written(ps) + rest, q).0 == [Sense(ps[0])] + Quoted(t, q).0
    ensures Quoted(Written(ps) + rest, q).1 == |Source(ps[0])| + Quoted(t, q).1
  {
    QuotedPiece(ps[0], q, t);
    assert Written(ps) + rest == Source(ps[0]) + t;
  }

  lemma Regrouped(c: char, m: string, end: string)
    ensures [c] + (m + end) == [c] + m + end
  {
  }

  /** Every text behind a quote is of this form. */
  lemma {:induction false} SplitQuoted(s: string, q: char) returns (ps: seq<Piece>, rest: string)
    requires q != '\\'
    ensures s == Written(ps) + rest && WellQuoted(ps, q) && QuoteEnds(rest, q)
    decreases |s|
  {
    if QuoteEnds(s, q) {
      ps, rest := [], s;
    } else {
      var n := if s[0] == '\\' then 2 else 1;
      var more, end := SplitQuoted(s[n..], q);
      ps, rest := [if n == 2 then Escaped(s[1]) else Bare(s[0])] + more, end;
      assert ps[1..] == more;
      assert s[..n] == if n == 2 then ['\\', s[1]] else [s[0]];
      assert s == s[..n] + (Written(more) + rest);
      assert Written(ps) == s[..n] + Written(more);
      forall i | 0 <= i < |ps| && ps[i].Bare? ensures ps[i].c != q && ps[i].c != '\\' {
        if i > 0 { assert ps[i] == more[i - 1]; }
      }
    }
  }

  /** A string literal means its pieces; without its closing quote it is an error. */
  lemma StringToken(ps: seq<Piece>, rest: string)
    requires WellQuoted(ps, '"') && QuoteEnds(rest, '"')
    ensures NextStep("\"" + Written(ps) + rest) ==
      if rest != "" && rest[0] == '"' then Emit(Token(StringLiteral, Meaning(ps)), |Written(ps)| + 2)
      else Bad(UnterminatedString)
  {
    var s := "\"" + Written(ps) + rest;
    assert s[1..] == Written(ps) + rest;
    QuotedPieces(ps, '"', rest);
  }

  /** A character literal means its pieces; it may end with the text. */
  lemma CharToken(ps: seq<Piece>, rest: string)
    requires WellQuoted(ps, '\'') && QuoteEnds(rest, '\'')
    ensures NextStep("'" + Written(ps) + rest) ==
      if rest == "" then Emit(Token(CharLiteral, Meaning(ps)), |Written(ps)| + 1)
      else if rest[0] == '\'' then Emit(Token(CharLiteral, Meaning(ps)), |Written(ps)| + 2)
      else Emit(Token(CharLiteral, Meaning(ps) + "\\"), |Written(ps)| + 2)
  {
    CharStep("'" + Written(ps) + rest, Written(ps) + rest, '\'');
    QuotedPieces(ps, '\'', rest);
  }

  lemma CharStep(s: string, t: string, c: char)
    requires s != [] && s[0] == c && c == '\'' && s[1..] == t
    ensures NextStep(s) ==
      Emit(Token(CharLiteral, Quoted(t, c).0),
        if 1 + Quoted(t, c).1 == |s| then Quoted(t, c).1 + 1 else Quoted(t, c).1 + 2)
  {
    assert !IsWhitespace(c) && !IsDigit(c);
  }

  // ------------------------------------------------------ operators and marks

  /** Token types spelled with one to three special characters. */
  predicate Mark(ty: TokenType) {
    Spelling(ty) != "" && !Keyword(ty)
  }

  lemma MarkLength(ty: TokenType)
    requires Mark(ty)
    ensures |Spelling(ty)| <= 3 && (|Spelling(ty)| == 3 <==> ty == Ellipsis)
  {
  }

  lemma TwoOpSpells(a: char, b: char)
    ensures TwoOp(a, b).Some? ==> Mark(TwoOp(a, b).value) && Spelling(TwoOp(a, b).value) == [a, b]
  {
  }

  lemma OneOpSpelling(c: char)
    ensures OneOp(c).Some? ==> Spelling(OneOp(c).value) == [c]
  {
    if c < '.' { LowSpelling(c); } else if c < '@' { MiddleSpelling(c); } else { HighSpelling(c); }
  }

  lemma LowSpelling(c: char)
    requires c < '.'
    ensures OneOp(c).Some? ==> Spelling(OneOp(c).value) == [c]
  {
  }

  lemma MiddleSpelling(c: char)
    requires '.' <= c < '@'
    ensures OneOp(c).Some? ==> Spelling(OneOp(c).value) == [c]
  {
  }

  lemma HighSpelling(c: char)
    requires c >= '@'
    ensures OneOp(c).Some? ==> Spelling(OneOp(c).value) == [c]
  {
  }

  lemma OneOpSpells(c: char)
    ensures OneOp(c).Some? ==> Mark(OneOp(c).value) && Spelling(OneOp(c).value) == [c]
  {
    OneOpSpelling(c);
    if OneOp(c).Some? && Keyword(OneOp(c).value) { GuessRight(OneOp(c).value); }
  }

  lemma TwoOpFound(ty: TokenType)
    requires Mark(ty) && |Spelling(ty)| == 2
    ensures TwoOp(Spelling(ty)[0], Spelling(ty)[1]) == Some(ty)
  {
  }

  lemma OneOpFound(ty: TokenType)
    requires Mark(ty) && |Spelling(ty)| == 1
    ensures OneOp(Spelling(ty)[0]) == Some(ty)
  {
  }

  /** The text starts with the mark. */
  predicate Starts(s: string, ty: TokenType) {
    Mark(ty) && Spelling(ty) <= s
  }

  /** A character that starts no blank, comment, word, number or quoted text. */
  predicate Special(s: string) {
    && s != [] && s[0] !in BLANKS && !Wordish(s[0]) && s[0] != '"' && s[0] != '\''
    && !(|s| > 1 && s[0] == '/' && (s[1] == '/' || s[1] == '*'))
  }

  lemma SpecialStep(s: string)
    requires Special(s)
    ensures NextStep(s) == Symbol(s)
  {
    BlankIs(s[0]);
  }

  /** There the longest mark that the text starts with is read. */
  lemma MarkToken(s: string, ty: TokenType)
    requires Special(s) && Starts(s, ty)
    requires forall u :: Starts(s, u) ==> |Spelling(u)| <= |Spelling(ty)|
    ensures NextStep(s) == Emit(Token(ty, Spelling(ty)), |Spelling(ty)|)
  {
    SpecialStep(s);
    MarkLength(ty);
    if |Spelling(ty)| < 3 {
      NoLonger(s, ty);
      ShortMark(s, ty);
    }
  }

  lemma ShortMark(s: string, ty: TokenType)
    requires s != [] && Starts(s, ty) && 1 <= |Spelling(ty)| <= 2 && !("..." <= s)
    requires |Spelling(ty)| == 1 && |s| >= 2 ==> TwoOp(s[0], s[1]).None?
    ensures Symbol(s) == Emit(Token(ty, Spelling(ty)), |Spelling(ty)|)
  {
    assert s[..|Spelling(ty)|] == Spelling(ty);
    if |Spelling(ty)| == 1 { OneOpFound(ty); } else { TwoOpFound(ty); }
  }

  lemma NoLonger(s: string, ty: TokenType)
    requires Starts(s, ty) && |Spelling(ty)| <= 2
    requires forall u :: Starts(s, u) ==> |Spelling(u)| <= |Spelling(ty)|
    ensures !("..." <= s) && (|Spelling(ty)| == 1 && |s| >= 2 ==> TwoOp(s[0], s[1]).None?)
  {
    assert "..." <= s ==> Starts(s, Ellipsis);
    if |s| >= 2 { TwoOpStarts(s); }
  }

  lemma TwoOpStarts(s: string)
    requires |s| >= 2
    ensures TwoOp(s[0], s[1]).Some? ==>
      Starts(s, TwoOp(s[0], s[1]).value) && |Spelling(TwoOp(s[0], s[1]).value)| == 2
  {
    TwoOpSpells(s[0], s[1]);
  }

  /** A special character that starts no mark is an error. */
  lemma UnknownChar(s: string)
    requires Special(s) && forall u :: !Starts(s, u)
    ensures NextStep(s) == Bad(UnexpectedChar(s[0]))
  {
    SpecialStep(s);
    assert "..." <= s ==> Starts(s, Ellipsis);
    if |s| >= 2 { TwoOpStarts(s); }
    OneOpSpells(s[0]);
    assert OneOp(s[0]).Some? ==> Starts(s, OneOp(s[0]).value);
  }
}
