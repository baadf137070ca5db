/** Tokens of the SQL shell: the lexer and the texts it reads back (wasdb_cli/src/parser.rs). */
module SqlLexer {
  import opened Util

  datatype Token =
    | Select
    | From
    | Where
    | Insert
    | Into
    | Values
    | Create
    | Table
    | Delete
    | Identifier(name: string)
    | Number(n: i32)
    | StringLiteral(s: string)
    | Comma
    | OpenParen
    | CloseParen
    | Equals
    | Semicolon
    | Eof

  // ----- Characters -----

  predicate IsDigit(c: char) {
    '0' <= c <= '9'
  }

  predicate IsAlphabetic(c: char) {
    'a' <= c <= 'z' || 'A' <= c <= 'Z'
  }

  predicate IsWordChar(c: char) {
    IsAlphabetic(c) || IsDigit(c) || c == '_'
  }

  predicate IsOther(c: char) {
    c != '\''
  }

  /** Unicode white space. */
  predicate IsSpace(c: char) {
    var i := c as int;
    || 0x9 <= i <= 0xD || i == 0x20 || i == 0x85 || i == 0xA0 || i == 0x1680 || 0x2000 <= i <= 0x200A
    || i == 0x2028 || i == 0x2029 || i == 0x202F || i == 0x205F || i == 0x3000
  }

  function Punctuation(c: char): Option<Token> {
    match c
    case '(' => Some(OpenParen)
    case ')' => Some(CloseParen)
    case ',' => Some(Comma)
    case '=' => Some(Equals)
    case ';' => Some(Semicolon)
    case _ => None
  }

  function Upper(c: char): char {
    if 'a' <= c <= 'z' then c - ' ' else c
  }

  function Uppercase(s: string): (r: string)
    ensures |r| == |s|
  {
    seq(|s|, i requires 0 <= i < |s| => Upper(s[i]))
  }

  const KEYWORDS: map<string, Token> :=
    map["SELECT" := Select, "FROM" := From, "WHERE" := Where, "INSERT" := Insert, "INTO" := Into,
        "VALUES" := Values, "CREATE" := Create, "TABLE" := Table, "DELETE" := Delete]

  function WordToken(s: string): Token {
    if Uppercase(s) in KEYWORDS then KEYWORDS[Uppercase(s)] else Identifier(s)
  }

  /** 32-bit wrap-around. */
  function Wrap(n: int): i32 {
    (n + 0x8000_0000) % U32 - 0x8000_0000
  }

  function DigitOf(c: char): nat
    requires IsDigit(c)
  {
    c as int - '0' as int
  }

  predicate Digits(s: string) {
    forall i :: 0 <= i < |s| ==> IsDigit(s[i])
  }

  /** The number that a string of digits reads as, wrapping at every digit. */
  function NumberOf(s: string): i32
    requires Digits(s)
  {
    if s == [] then 0 else Wrap(NumberOf(s[..|s| - 1]) * 10 + DigitOf(s[|s| - 1]))
  }

  /** How many leading characters satisfy the predicate. */
  function Span(s: string, p: char -> bool): (n: nat)
    ensures n <= |s|
    ensures forall i :: 0 <= i < n ==> p(s[i])
    ensures n < |s| ==> !p(s[n])
  {
    if s == [] || !p(s[0]) then 0 else 1 + Span(s[1..], p)
  }

  lemma SpanIs(s: string, p: char -> bool, n: nat)
    requires n <= |s| && (forall i :: 0 <= i < n ==> p(s[i])) && (n < |s| ==> !p(s[n]))
    ensures Span(s, p) == n
  {
  }

  // ----- One token -----

  /** The string that starts with the quote a text begins with, and what is left of the text. */
  function Quoted(s: string): (r: (Token, string))
    requires s != []
    ensures |r.1| < |s| && r.1 == s[|s| - |r.1|..] && r.0.StringLiteral?
  {
    var n := Span(s[1..], IsOther);
    (StringLiteral(s[1..n + 1]), if n + 1 < |s| then s[n + 2..] else [])
  }

  /** The next token of a text, and what is left of the text. */
  function NextToken(s: string): (r: (Token, string))
    ensures |r.1| <= |s| && r.1 == s[|s| - |r.1|..]
    ensures r.0 == Eof ==> r.1 == []
    ensures r.0 != Eof ==> |r.1| < |s|
  {
    if s == [] then (Eof, [])
    else if IsSpace(s[0]) then NextToken(s[1..])
    else if Punctuation(s[0]).Some? then (Punctuation(s[0]).value, s[1..])
    else if s[0] == '\'' then
      Quoted(s)
    else if IsDigit(s[0]) then
      var n := Span(s, IsDigit);
      (Number(NumberOf(s[..n])), s[n..])
    else if IsAlphabetic(s[0]) then
      var n := Span(s, IsWordChar);
      KeywordsAreNotEof(s[..n]);
      (WordToken(s[..n]), s[n..])
    else NextToken(s[1..])
  }

  lemma KeywordsAreNotEof(s: string)
    ensures WordToken(s) != Eof
  {
  }

  /** All tokens of a text. */
  function Tokens(s: string): seq<Token>
    decreases |s|
  {
    var (t, rest) := NextToken(s);
    if t == Eof then [] else [t] + Tokens(rest)
  }

  // ----- What a text that starts with a token reads as -----

  lemma AtDigit(s: string, n: nat)
    requires s != [] && IsDigit(s[0]) && n == Span(s, IsDigit)
    ensures Digits(s[..n]) && NextToken(s) == (Number(NumberOf(s[..n])), s[n..])
  {
    hide WordToken, KEYWORDS, NumberOf, Span;
  }

  lemma NumberRead(s: string, n: nat)
    requires 0 < n <= |s| && Digits(s[..n]) && (n < |s| ==> !IsDigit(s[n]))
    ensures NextToken(s) == (Number(NumberOf(s[..n])), s[n..])
  {
    hide NextToken, NumberOf;
    assert forall i :: 0 <= i < n ==> s[..n][i] == s[i];
    SpanIs(s, IsDigit, n);
    AtDigit(s, n);
  }

  lemma AtLetter(s: string, n: nat)
    requires s != [] && IsAlphabetic(s[0]) && n == Span(s, IsWordChar)
    ensures NextToken(s) == (WordToken(s[..n]), s[n..])
  {
    hide WordToken, KEYWORDS, NumberOf, Span;
  }

  lemma WordRead(s: string, n: nat)
    requires 0 < n <= |s| && IsAlphabetic(s[0])
    requires (forall i :: 0 <= i < n ==> IsWordChar(s[i])) && (n < |s| ==> !IsWordChar(s[n]))
    ensures NextToken(s) == (WordToken(s[..n]), s[n..])
  {
    hide NextToken, WordToken, KEYWORDS;
    SpanIs(s, IsWordChar, n);
    AtLetter(s, n);
  }

  /** A quote is neither white space nor punctuation. */
  lemma QuoteIsPlain(c: char)
    requires c == '\''
    ensures !IsSpace(c) && Punctuation(c).None?
  {
  }

  lemma AtQuote(s: string)
    requires s != [] && s[0] == '\''
    ensures NextToken(s) == Quoted(s)
  {
    hide Punctuation, IsSpace, WordToken, NumberOf, Span, Quoted;
    QuoteIsPlain(s[0]);
  }

  /** The characters behind the quote, up to the next one. */
  lemma InsideQuotes(s: string, n: nat)
    requires s != [] && n + 1 <= |s|
    requires (forall i :: 1 <= i < n + 1 ==> s[i] != '\'') && (n + 1 < |s| ==> s[n + 1] == '\'')
    ensures Span(s[1..], IsOther) == n
  {
    hide Span;
    var inner := s[1..];
    forall i | 0 <= i < n ensures IsOther(inner[i]) {
      assert inner[i] == s[i + 1];
    }
    SpanIs(inner, IsOther, n);
  }

  lemma QuotedIs(s: string, n: nat)
    requires s != [] && n == Span(s[1..], IsOther)
    ensures n + 1 <= |s|
    ensures Quoted(s) == (StringLiteral(s[1..n + 1]), if n + 1 < |s| then s[n + 2..] else [])
  {
    hide Span, IsOther;
  }

  lemma StringRead(s: string, n: nat)
    requires s != [] && s[0] == '\'' && n + 1 <= |s|
    requires (forall i :: 1 <= i < n + 1 ==> s[i] != '\'') && (n + 1 < |s| ==> s[n + 1] == '\'')
    ensures NextToken(s) == (StringLiteral(s[1..n + 1]), if n + 1 < |s| then s[n + 2..] else [])
  {
    hide NextToken, Quoted, Span, IsOther;
    AtQuote(s);
    InsideQuotes(s, n);
    QuotedIs(s, n);
  }

  // ----- The lexer object -----

  class Lexer {
    /** The characters not yet consumed. */
    var chars: string

    constructor (input: string)
      ensures chars == input
    {
      chars := input;
    }

    method SkipWhitespace()
      modifies this
      ensures NextToken(chars) == NextToken(old(chars)) && |chars| <= |old(chars)|
      ensures chars != [] ==> !IsSpace(chars[0])
    {
      while chars != [] && IsSpace(chars[0])
        invariant NextToken(chars) == NextToken(old(chars)) && |chars| <= |old(chars)|
        decreases |chars|
      {
        chars := chars[1..];
      }
    }

    /** Consumes the characters of one token and no others: what is left is the end of what was there. */
    method Next() returns (t: Token)
      modifies this
      ensures (t, chars) == NextToken(old(chars))
      decreases |chars|
    {
      SkipWhitespace();
      if chars == [] {
        return Eof;
      }
      var c := chars[0];
      if Punctuation(c).Some? {
        chars := chars[1..];
        t := Punctuation(c).value;
      } else if c == '\'' {
        t := ReadString();
      } else if IsDigit(c) {
        t := ReadNumber();
      } else if IsAlphabetic(c) {
        t := ReadWord();
      } else {
        chars := chars[1..];
        t := Next();
      }
    }

    method ReadString() returns (t: Token)
      requires chars != [] && chars[0] == '\''
      modifies this
      ensures (t, chars) == NextToken(old(chars))
    {
      ghost var all := chars;
      hide NextToken;
      chars := chars[1..];
      var s := "";
      while chars != []
        invariant |s| + 1 <= |all| && chars == all[|s| + 1..] && s == all[1..|s| + 1]
        invariant forall i :: 0 <= i < |s| ==> IsOther(s[i])
        decreases |chars|
      {
        var ch := chars[0];
        chars := chars[1..];
        if ch == '\'' {
          break;
        }
        s := s + [ch];
      }
      StringRead(all, |s|);
      t := StringLiteral(s);
    }

    method ReadNumber() returns (t: Token)
      requires chars != [] && IsDigit(chars[0])
      modifies this
      ensures (t, chars) == NextToken(old(chars))
    {
      ghost var all := chars;
      hide NextToken;
      ghost var n := 0;
      var num: i32 := 0;
      while chars != [] && IsDigit(chars[0])
        invariant n <= |all| && chars == all[n..]
        invariant Digits(all[..n]) && num == NumberOf(all[..n])
        decreases |chars|
      {
        assert all[..n + 1][..n] == all[..n];
        assert Digits(all[..n + 1]);
        num := Wrap(num * 10 + DigitOf(chars[0]));
        chars := chars[1..];
        n := n + 1;
      }
      NumberRead(all, n);
      t := Number(num);
    }

    method ReadWord() returns (t: Token)
      requires chars != [] && IsAlphabetic(chars[0])
      modifies this
      ensures (t, chars) == NextToken(old(chars))
    {
      ghost var all := chars;
      hide NextToken;
      var s := "";
      while chars != [] && IsWordChar(chars[0])
        invariant |s| <= |all| && chars == all[|s|..] && s == all[..|s|]
        invariant forall i :: 0 <= i < |s| ==> IsWordChar(s[i])
        decreases |chars|
      {
        s := s + [chars[0]];
        chars := chars[1..];
      }
      WordRead(all, |s|);
      t := WordToken(s);
    }
  }

  // ----- Texts that read back as given tokens -----

  /** A token as written, after a gap. */
  datatype Piece = Piece(gap: string, spelling: string, token: Token)

  predicate IsIdentifier(s: string) {
    s != [] && IsAlphabetic(s[0]) && (forall i :: 0 <= i < |s| ==> IsWordChar(s[i])) && Uppercase(s) !in KEYWORDS
  }

  /** Keywords are spelled in any casing, numbers by their digits, strings between quotes. */
  predicate Spells(s: string, t: Token) {
    match t
    case Identifier(name) => s == name && IsIdentifier(name)
    case Number(n) => s != [] && Digits(s) && NumberOf(s) == n
    case StringLiteral(v) => s == "'" + v + "'" && forall i :: 0 <= i < |v| ==> v[i] != '\''
    case Eof => false
    case _ => if |s| == 1 && Punctuation(s[0]).Some? then Punctuation(s[0]) == Some(t)
              else Uppercase(s) in KEYWORDS && KEYWORDS[Uppercase(s)] == t
  }

  /** Tokens that run on into letters and digits that follow them. */
  predicate Wordy(t: Token) {
    t.Identifier? || t.Number? || t in KEYWORDS.Values
  }

  predicate IsGap(s: string) {
    forall i :: 0 <= i < |s| ==> IsSpace(s[i])
  }

  /** Gaps are white space, and there is one between any two words or numbers. */
  predicate WellSpelled(ps: seq<Piece>) {
    forall i :: 0 <= i < |ps| ==>
      && IsGap(ps[i].gap) && Spells(ps[i].spelling, ps[i].token)
      && (0 < i && Wordy(ps[i - 1].token) && Wordy(ps[i].token) ==> ps[i].gap != [])
  }

  function Text(ps: seq<Piece>): string {
    if ps == [] then [] else ps[0].gap + ps[0].spelling + Text(ps[1..])
  }

  function TokensOf(ps: seq<Piece>): seq<Token> {
    seq(|ps|, i requires 0 <= i < |ps| => ps[i].token)
  }

  lemma {:induction false} GapIsSkipped(gap: string, rest: string)
    requires IsGap(gap)
    ensures NextToken(gap + rest) == NextToken(rest)
  {
    if gap == [] {
      assert gap + rest == rest;
    } else {
      assert (gap + rest)[1..] == gap[1..] + rest;
      GapIsSkipped(gap[1..], rest);
    }
  }

  lemma KeywordLetters(k: string)
    requires k in KEYWORDS
    ensures k != [] && forall i :: 0 <= i < |k| ==> 'A' <= k[i] <= 'Z'
  {
  }

  lemma LetterIsWordChar(c: char)
    requires 'A' <= Upper(c) <= 'Z'
    ensures IsAlphabetic(c) && IsWordChar(c)
  {
  }

  lemma KeywordIsWord(s: string)
    requires Uppercase(s) in KEYWORDS
    ensures s != [] && IsAlphabetic(s[0]) && forall i :: 0 <= i < |s| ==> IsWordChar(s[i])
    ensures WordToken(s) == KEYWORDS[Uppercase(s)]
  {
    var u := Uppercase(s);
    assert |u| == |s| && forall i :: 0 <= i < |s| ==> u[i] == Upper(s[i]);
    hide KEYWORDS, Uppercase, Upper, IsAlphabetic, IsWordChar;
    KeywordLetters(u);
    forall i | 0 <= i < |s|
      ensures IsAlphabetic(s[i]) && IsWordChar(s[i])
    {
      assert u[i] == Upper(s[i]);
      LetterIsWordChar(s[i]);
    }
  }

  lemma WordyIsSpelledByWord(s: string, t: Token)
    requires Spells(s, t) && Wordy(t) && !t.Number?
    ensures s != [] && IsAlphabetic(s[0]) && (forall i :: 0 <= i < |s| ==> IsWordChar(s[i])) && WordToken(s) == t
  {
    if !t.Identifier? {
      KeywordIsWord(s);
    }
  }

  lemma PunctuationIsRead(s: string, t: Token, rest: string)
    requires Spells(s, t) && !Wordy(t) && !t.StringLiteral?
    ensures NextToken(s + rest) == (t, rest)
  {
    assert |s| == 1 && Punctuation(s[0]) == Some(t);
    assert (s + rest)[0] == s[0] && (s + rest)[1..] == rest;
  }

  lemma QuotedIsRead(v: string, rest: string)
    requires forall i :: 0 <= i < |v| ==> v[i] != '\''
    ensures NextToken("'" + v + "'" + rest) == (StringLiteral(v), rest)
  {
    hide NextToken;
    var all := "'" + v + "'" + rest;
    assert all[1..|v| + 1] == v && all[|v| + 2..] == rest;
    StringRead(all, |v|);
  }

  /** A spelling followed by nothing it runs on into is read as its token. */
  lemma SpellingIsRead(s: string, t: Token, rest: string)
    requires Spells(s, t)
    requires Wordy(t) && rest != [] ==> !IsWordChar(rest[0])
    ensures NextToken(s + rest) == (t, rest)
  {
    var all := s + rest;
    assert all[|s|..] == rest && all[..|s|] == s;
    if t.StringLiteral? {
      QuotedIsRead(t.s, rest);
    } else if t.Number? {
      hide NextToken, NumberOf, KEYWORDS, Wordy;
      NumberRead(all, |s|);
    } else if Wordy(t) {
      WordyIsSpelledByWord(s, t);
      hide NextToken, KEYWORDS, Wordy, Spells, WordToken;
      WordRead(all, |s|);
    } else {
      PunctuationIsRead(s, t, rest);
    }
  }

  /** What follows a word or number does not continue it. */
  lemma NextPieceIsApart(ps: seq<Piece>)
    requires |ps| > 1 && WellSpelled(ps) && Wordy(ps[0].token)
    ensures Text(ps[1..]) != [] && !IsWordChar(Text(ps[1..])[0])
  {
    var p := ps[1];
    assert ps[1..][0] == p;
    var text := p.gap + p.spelling + Text(ps[1..][1..]);
    assert Text(ps[1..]) == text;
    if p.gap == [] {
      SpellingStart(p.spelling, p.token);
      assert text[0] == p.spelling[0];
    } else {
      assert text[0] == p.gap[0];
    }
  }

  lemma SpellingStart(s: string, t: Token)
    requires Spells(s, t) && !Wordy(t)
    ensures s != [] && !IsWordChar(s[0])
  {
  }

  /** A text whose tokens are spelled out reads as those tokens, whatever the casing of keywords, and
      whatever the white space that separates them. */
  lemma {:induction false} TextReadsBack(ps: seq<Piece>, trail: string)
    requires WellSpelled(ps) && IsGap(trail)
    ensures Tokens(Text(ps) + trail) == TokensOf(ps)
  {
    if ps == [] {
      assert Text(ps) + trail == trail + [];
      GapIsSkipped(trail, []);
    } else {
      FirstPieceIsRead(ps, trail);
      PeelPieces(ps);
      hide NextToken, WellSpelled, Text, Tokens, TokensOf;
      TextReadsBack(ps[1..], trail);
      PeelToken(Text(ps) + trail);
    }
  }

  lemma PeelToken(s: string)
    ensures Tokens(s) == if NextToken(s).0 == Eof then [] else [NextToken(s).0] + Tokens(NextToken(s).1)
  {
    hide NextToken;
  }

  lemma PeelPieces(ps: seq<Piece>)
    requires ps != [] && WellSpelled(ps)
    ensures WellSpelled(ps[1..]) && TokensOf(ps) == [ps[0].token] + TokensOf(ps[1..])
  {
    hide IsGap, Spells, Wordy;
  }

  lemma FirstPieceIsRead(ps: seq<Piece>, trail: string)
    requires ps != [] && WellSpelled(ps) && IsGap(trail)
    ensures NextToken(Text(ps) + trail) == (ps[0].token, Text(ps[1..]) + trail) && ps[0].token != Eof
  {
    var p, later := ps[0], Text(ps[1..]);
    assert IsGap(p.gap) && Spells(p.spelling, p.token) && Text(ps) == p.gap + p.spelling + later;
    RestIsApart(ps, trail);
    hide *;
    Regroup(p.gap, p.spelling, later, trail);
    GapIsSkipped(p.gap, p.spelling + (later + trail));
    SpellingIsRead(p.spelling, p.token, later + trail);
    SpelledIsNotEof(p.spelling, p.token);
  }

  lemma SpelledIsNotEof(s: string, t: Token)
    requires Spells(s, t)
    ensures t != Eof
  {
  }

  lemma RestIsApart(ps: seq<Piece>, trail: string)
    requires ps != [] && WellSpelled(ps) && IsGap(trail)
    ensures var rest := Text(ps[1..]) + trail; Wordy(ps[0].token) && rest != [] ==> !IsWordChar(rest[0])
  {
    if Wordy(ps[0].token) {
      if |ps| > 1 {
        NextPieceIsApart(ps);
      } else {
        assert Text(ps[1..]) + trail == trail;
      }
    }
  }

  lemma Regroup(a: string, b: string, c: string, d: string)
    ensures a + b + c + d == a + (b + (c + d))
  {
  }
}
