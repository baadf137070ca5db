/** Statements written out and read back (wasdb_cli/src/parser.rs). */
module SqlRoundTrip {
  import opened Util
  import opened SqlLexer
  import opened SqlParser

  /** What the shell makes of a line of text. */
  function ParseText(s: string): Parsed {
    AstOf(Tokens(s))
  }

  // ----- The tokens a statement is written with -----

  /** A list with a comma between any two items, and perhaps one behind the last. */
  function CommaList(items: seq<Token>, comma: bool): seq<Token> {
    if items == [] then []
    else if |items| == 1 then if comma then [items[0], Comma] else [items[0]]
    else [items[0], Comma] + CommaList(items[1..], comma)
  }

  function Identifiers(names: seq<string>): seq<Token> {
    seq(|names|, i requires 0 <= i < |names| => Identifier(names[i]))
  }

  function TypedName(name: string, typed: Option<string>): seq<Token> {
    if typed.Some? then [Identifier(name), Identifier(typed.value)] else [Identifier(name)]
  }

  /** Column names, each with the type the writer chose to give it, if any. */
  function TypedList(names: seq<string>, types: seq<Option<string>>, comma: bool): seq<Token>
    requires |names| == |types|
  {
    if names == [] then []
    else if |names| == 1 then TypedName(names[0], types[0]) + if comma then [Comma] else []
    else TypedName(names[0], types[0]) + ([Comma] + TypedList(names[1..], types[1..], comma))
  }

  /** The writer's freedom: a literal for each value of an insert, types for the columns of a create, and a comma behind
      a list. */
  datatype Choice = Choice(literals: seq<Token>, types: seq<Option<string>>, comma: bool)

  predicate Fits(c: Choice, ast: Ast) {
    match ast
    case InsertInto(_, values) =>
      && |c.literals| == |values|
      && forall i :: 0 <= i < |values| ==> IsValue(c.literals[i]) && ValueOf(c.literals[i]) == values[i]
    case CreateTable(_, columns) => |c.types| == |columns|
    case _ => true
  }

  function Written(ast: Ast, c: Choice): seq<Token>
    requires Fits(c, ast)
  {
    match ast
    case SelectFrom(columns, table) => [Select] + (CommaList(Identifiers(columns), c.comma) + [From, Identifier(table)])
    case InsertInto(table, _) =>
      [Insert, Into, Identifier(table), Values, OpenParen] + (CommaList(c.literals, c.comma) + [CloseParen])
    case CreateTable(table, columns) =>
      [Create, Table, Identifier(table), OpenParen] + (TypedList(columns, c.types, c.comma) + [CloseParen])
    case DeleteFrom(table) => [Delete, From, Identifier(table)]
  }

  lemma LastItem(t: Token, comma: bool, rest: seq<Token>)
    ensures var ts := CommaList([t], comma) + rest;
            Head(ts) == t && if comma then Head(Tail(ts)) == Comma && Tail(Tail(ts)) == rest else Tail(ts) == rest
  {
    var ts := CommaList([t], comma) + rest;
    if comma {
      assert ts[1..][1..] == rest;
    } else {
      assert ts[1..] == rest;
    }
  }

  lemma FirstItem(items: seq<Token>, comma: bool, rest: seq<Token>)
    requires |items| > 1
    ensures var ts := CommaList(items, comma) + rest;
            && Head(ts) == items[0] && Head(Tail(ts)) == Comma
            && Tail(Tail(ts)) == CommaList(items[1..], comma) + rest
  {
    var ts, more := CommaList(items, comma) + rest, CommaList(items[1..], comma) + rest;
    assert ts == [items[0], Comma] + more;
    assert ts[1..] == [Comma] + more && ts[1..][1..] == more;
  }

  lemma {:induction false} NamesRead(names: seq<string>, comma: bool, rest: seq<Token>)
    requires !Head(rest).Identifier? && !Head(rest).Comma?
    ensures Names(CommaList(Identifiers(names), comma) + rest) == (names, rest)
  {
    var ids := Identifiers(names);
    var ts := CommaList(ids, comma) + rest;
    NamesUnfold(ts);
    NamesUnfold(rest);
    if names == [] {
      assert ts == rest;
    } else if |names| == 1 {
      assert names == [names[0]] && ids == [ids[0]] && [names[0]] + [] == names;
      hide Names, CommaList, Head, Tail;
      LastItem(ids[0], comma, rest);
    } else {
      assert Identifiers(names[1..]) == ids[1..] && names == [names[0]] + names[1..];
      hide Names, CommaList, Head, Tail;
      FirstItem(ids, comma, rest);
      NamesRead(names[1..], comma, rest);
    }
  }

  lemma TypedNameRead(name: string, typed: Option<string>, later: seq<Token>)
    requires !Head(later).Identifier?
    ensures TypedNames(TypedName(name, typed) + later) ==
            if Head(later).Comma? then ([name] + TypedNames(Tail(later)).0, TypedNames(Tail(later)).1)
            else ([name], later)
  {
    var ts := TypedName(name, typed) + later;
    if typed.Some? {
      assert Tail(ts) == [Identifier(typed.value)] + later && Tail(Tail(ts)) == later;
    } else {
      assert Tail(ts) == later;
    }
  }

  lemma TypedListUnfold(names: seq<string>, types: seq<Option<string>>, comma: bool, rest: seq<Token>)
    requires |names| == |types| && names != []
    ensures TypedList(names, types, comma) + rest ==
            TypedName(names[0], types[0])
            + if |names| == 1 then (if comma then [Comma] else []) + rest
              else [Comma] + (TypedList(names[1..], types[1..], comma) + rest)
  {
    hide TypedName;
  }

  lemma {:induction false} TypedNamesRead(names: seq<string>, types: seq<Option<string>>, comma: bool, rest: seq<Token>)
    requires |names| == |types| && !Head(rest).Identifier? && !Head(rest).Comma?
    ensures TypedNames(TypedList(names, types, comma) + rest) == (names, rest)
  {
    if names == [] {
      assert TypedList(names, types, comma) + rest == rest;
    } else {
      hide TypedNames, TypedName, TypedList;
      TypedListUnfold(names, types, comma, rest);
      assert names == [names[0]] + names[1..];
      if |names| == 1 {
        assert names == [names[0]];
        LastTyped(names[0], types[0], comma, rest);
      } else {
        var more := TypedList(names[1..], types[1..], comma) + rest;
        TypedNamesRead(names[1..], types[1..], comma, rest);
        TypedNameRead(names[0], types[0], [Comma] + more);
        assert Tail([Comma] + more) == more;
      }
    }
  }

  lemma LastTyped(name: string, typed: Option<string>, comma: bool, rest: seq<Token>)
    requires !Head(rest).Identifier? && !Head(rest).Comma?
    ensures TypedNames(TypedName(name, typed) + ((if comma then [Comma] else []) + rest)) == ([name], rest)
  {
    var later := (if comma then [Comma] else []) + rest;
    assert TypedNames(rest) == ([], rest) && [name] + [] == [name];
    if comma {
      assert Tail(later) == rest;
    } else {
      assert later == rest;
    }
    hide TypedNames, TypedName;
    TypedNameRead(name, typed, later);
  }

  lemma {:induction false} ValuesRead(literals: seq<Token>, values: seq<string>, comma: bool, rest: seq<Token>)
    requires |literals| == |values|
    requires forall i :: 0 <= i < |values| ==> IsValue(literals[i]) && ValueOf(literals[i]) == values[i]
    requires !IsValue(Head(rest)) && !Head(rest).Comma?
    ensures ValueList(CommaList(literals, comma) + rest) == (values, rest)
  {
    var ts := CommaList(literals, comma) + rest;
    ValueListUnfold(ts);
    ValueListUnfold(rest);
    if values == [] {
      assert ts == rest;
    } else if |values| == 1 {
      assert values == [values[0]] && literals == [literals[0]] && [values[0]] + [] == values;
      hide ValueList, CommaList, Head, Tail, IsValue, ValueOf;
      LastItem(literals[0], comma, rest);
    } else {
      assert values == [values[0]] + values[1..];
      hide ValueList, CommaList, Head, Tail, IsValue, ValueOf;
      FirstItem(literals, comma, rest);
      ValuesRead(literals[1..], values[1..], comma, rest);
    }
  }

  lemma SelectReads(columns: seq<string>, table: string, comma: bool, more: seq<Token>)
    ensures SelectAst([Select] + (CommaList(Identifiers(columns), comma) + [From, Identifier(table)]) + more) ==
            Ok(SelectFrom(columns, table))
  {
    hide Names, CommaList, Identifiers;
    var items, end := CommaList(Identifiers(columns), comma), [From, Identifier(table)] + more;
    var ts := [Select] + (items + [From, Identifier(table)]) + more;
    assert Tail(ts) == items + end;
    NamesRead(columns, comma, end);
    assert Tail(end) == [Identifier(table)] + more;
  }

  lemma InsertReads(table: string, literals: seq<Token>, values: seq<string>, comma: bool, more: seq<Token>)
    requires |literals| == |values|
    requires forall i :: 0 <= i < |values| ==> IsValue(literals[i]) && ValueOf(literals[i]) == values[i]
    ensures InsertAst([Insert, Into, Identifier(table), Values, OpenParen]
                      + (CommaList(literals, comma) + [CloseParen]) + more)
            == Ok(InsertInto(table, values))
  {
    var first := [Insert, Into, Identifier(table), Values, OpenParen];
    var items := CommaList(literals, comma);
    InsertBodyReads(table, literals, values, comma, more);
    hide CommaList, IsValue, ValueOf, InsertBody;
    FiveThen(first, items, [CloseParen], more);
    InsertStarts(first + (items + [CloseParen]) + more, table);
  }

  lemma InsertStarts(ts: seq<Token>, table: string)
    requires Head(Tail(ts)) == Into && Head(Tail(Tail(ts))) == Identifier(table)
    requires Head(Tail(Tail(Tail(ts)))) == Values && Head(Tail(Tail(Tail(Tail(ts))))) == OpenParen
    ensures InsertAst(ts) == InsertBody(table, Tail(Tail(Tail(Tail(Tail(ts))))))
  {
    hide Head, Tail, InsertBody;
  }

  lemma InsertBodyReads(table: string, literals: seq<Token>, values: seq<string>, comma: bool, more: seq<Token>)
    requires |literals| == |values|
    requires forall i :: 0 <= i < |values| ==> IsValue(literals[i]) && ValueOf(literals[i]) == values[i]
    ensures InsertBody(table, CommaList(literals, comma) + ([CloseParen] + more)) == Ok(InsertInto(table, values))
  {
    var end := [CloseParen] + more;
    assert Head(end) == CloseParen;
    ValuesRead(literals, values, comma, end);
    hide ValueList, CommaList;
  }

  /** What is left of a list after its first tokens, up to five of them. */
  lemma FiveThen(first: seq<Token>, items: seq<Token>, last: seq<Token>, more: seq<Token>)
    requires |first| == 5
    ensures var t0 := first + (items + last) + more;
            var (t1, t2, t3, t4) := (Tail(t0), Tail(Tail(t0)), Tail(Tail(Tail(t0))), Tail(Tail(Tail(Tail(t0)))));
            && Head(t0) == first[0] && Head(t1) == first[1] && Head(t2) == first[2] && Head(t3) == first[3]
            && Head(t4) == first[4]
            && Tail(t4) == items + (last + more)
  {
    var t0 := first + (items + last) + more;
    Drops(t0, first, items + (last + more));
  }

  lemma Drops(t0: seq<Token>, first: seq<Token>, rest: seq<Token>)
    requires |first| == 5 && t0 == first + rest
    ensures var (t1, t2, t3, t4) := (Tail(t0), Tail(Tail(t0)), Tail(Tail(Tail(t0))), Tail(Tail(Tail(Tail(t0)))));
            && Head(t0) == first[0] && Head(t1) == first[1] && Head(t2) == first[2] && Head(t3) == first[3]
            && Head(t4) == first[4]
            && Tail(t4) == rest
  {
    assert t0[1..] == first[1..] + rest;
    assert t0[1..][1..] == first[2..] + rest;
    assert t0[1..][1..][1..] == first[3..] + rest;
    assert t0[1..][1..][1..][1..] == first[4..] + rest;
    assert t0[1..][1..][1..][1..][1..] == rest;
  }

  lemma FourThen(first: seq<Token>, items: seq<Token>, last: seq<Token>, more: seq<Token>)
    requires |first| == 4
    ensures var t0 := first + (items + last) + more;
            var (t1, t2, t3) := (Tail(t0), Tail(Tail(t0)), Tail(Tail(Tail(t0))));
            && Head(t0) == first[0] && Head(t1) == first[1] && Head(t2) == first[2] && Head(t3) == first[3]
            && Tail(t3) == items + (last + more)
  {
    var t0 := first + (items + last) + more;
    assert ([Semicolon] + first) + (items + last) + more == [Semicolon] + t0;
    assert Tail([Semicolon] + t0) == t0;
    FiveThen([Semicolon] + first, items, last, more);
  }

  lemma CreateStarts(ts: seq<Token>, table: string)
    requires Head(Tail(ts)) == Table && Head(Tail(Tail(ts))) == Identifier(table)
    requires Head(Tail(Tail(Tail(ts)))) == OpenParen
    ensures CreateAst(ts) == CreateBody(table, Tail(Tail(Tail(Tail(ts)))))
  {
    hide Head, Tail, CreateBody;
  }

  lemma CreateBodyReads(table: string, columns: seq<string>, types: seq<Option<string>>, comma: bool, more: seq<Token>)
    requires |types| == |columns|
    ensures CreateBody(table, TypedList(columns, types, comma) + ([CloseParen] + more)) ==
            Ok(CreateTable(table, columns))
  {
    var end := [CloseParen] + more;
    assert Head(end) == CloseParen;
    TypedNamesRead(columns, types, comma, end);
    hide TypedNames, TypedList;
  }

  lemma CreateReads(table: string, columns: seq<string>, types: seq<Option<string>>, comma: bool, more: seq<Token>)
    requires |types| == |columns|
    ensures CreateAst([Create, Table, Identifier(table), OpenParen] + (TypedList(columns, types, comma) + [CloseParen])
                      + more)
            == Ok(CreateTable(table, columns))
  {
    var first := [Create, Table, Identifier(table), OpenParen];
    var items := TypedList(columns, types, comma);
    CreateBodyReads(table, columns, types, comma, more);
    hide TypedList, CreateBody;
    FourThen(first, items, [CloseParen], more);
    CreateStarts(first + (items + [CloseParen]) + more, table);
  }

  lemma DeleteReads(table: string, more: seq<Token>)
    ensures DeleteAst([Delete, From, Identifier(table)] + more) == Ok(DeleteFrom(table))
  {
    var ts := [Delete, From, Identifier(table)] + more;
    assert Tail(ts) == [From, Identifier(table)] + more && Tail(Tail(ts)) == [Identifier(table)] + more;
  }

  /** However a statement is written, and whatever follows it, its tokens parse back to it. */
  lemma WrittenReadsBack(ast: Ast, c: Choice, more: seq<Token>)
    requires Fits(c, ast)
    ensures AstOf(Written(ast, c) + more) == Ok(ast)
  {
    hide SelectAst, InsertAst, CreateAst, DeleteAst, CommaList, TypedList;
    match ast {
      case SelectFrom(columns, table) => SelectReads(columns, table, c.comma, more);
      case InsertInto(table, values) => InsertReads(table, c.literals, values, c.comma, more);
      case CreateTable(table, columns) => CreateReads(table, columns, c.types, c.comma, more);
      case DeleteFrom(table) => DeleteReads(table, more);
    }
  }

  /** The round trip on text: keywords in any casing, any white space between tokens, strings quoted, numbers
      in digits, and anything after the statement. */
  lemma TextParsesBack(ps: seq<Piece>, trail: string, ast: Ast, c: Choice, more: seq<Token>)
    requires WellSpelled(ps) && IsGap(trail)
    requires Fits(c, ast) && TokensOf(ps) == Written(ast, c) + more
    ensures ParseText(Text(ps) + trail) == Ok(ast)
  {
    TextReadsBack(ps, trail);
    WrittenReadsBack(ast, c, more);
  }

  // ----- Which statements can be written -----

  predicate Quotable(v: string) {
    forall i :: 0 <= i < |v| ==> v[i] != '\''
  }

  predicate NamesOk(names: seq<string>) {
    forall i :: 0 <= i < |names| ==> IsIdentifier(names[i])
  }

  /** Names are identifiers and no keywords; values hold no quotes. */
  predicate Expressible(ast: Ast) {
    match ast
    case SelectFrom(columns, table) => NamesOk(columns) && IsIdentifier(table)
    case InsertInto(table, values) => IsIdentifier(table) && forall i :: 0 <= i < |values| ==> Quotable(values[i])
    case CreateTable(table, columns) => IsIdentifier(table) && NamesOk(columns)
    case DeleteFrom(table) => IsIdentifier(table)
  }

  function Spelling(t: Token): string {
    match t
    case Identifier(name) => name
    case StringLiteral(s) => "'" + s + "'"
    case Select => "SELECT"
    case From => "FROM"
    case Insert => "INSERT"
    case Into => "INTO"
    case Values => "VALUES"
    case Create => "CREATE"
    case Table => "TABLE"
    case Delete => "DELETE"
    case Comma => ","
    case OpenParen => "("
    case CloseParen => ")"
    case _ => ""
  }

  predicate Plain(t: Token) {
    match t
    case Identifier(name) => IsIdentifier(name)
    case StringLiteral(s) => Quotable(s)
    case Number(_) => false
    case _ => t != Where && t != Equals && t != Semicolon && t != Eof
  }

  function Pieces(ts: seq<Token>): seq<Piece> {
    seq(|ts|, i requires 0 <= i < |ts| => Piece(" ", Spelling(ts[i]), ts[i]))
  }

  function PlainChoice(ast: Ast): Choice {
    match ast
    case InsertInto(_, values) =>
      Choice(seq(|values|, i requires 0 <= i < |values| => StringLiteral(values[i])), [], false)
    case CreateTable(_, columns) => Choice([], seq(|columns|, _ => None), false)
    case _ => Choice([], [], false)
  }

  /** One way to write a statement: capitals, single spaces, every value quoted. */
  function Render(ast: Ast): string {
    Text(Pieces(Written(ast, PlainChoice(ast))))
  }

  lemma CapitalsAreUpper(s: string)
    requires forall i :: 0 <= i < |s| ==> 'A' <= s[i] <= 'Z'
    ensures Uppercase(s) == s
  {
  }

  lemma PlainIsSpelled(t: Token)
    requires Plain(t)
    ensures Spells(Spelling(t), t)
  {
    var s := Spelling(t);
    if !t.Identifier? && !t.StringLiteral? && |s| > 1 {
      CapitalsAreUpper(s);
    }
  }

  lemma {:induction false} CommaListIsPlain(items: seq<Token>)
    requires forall t :: t in items ==> Plain(t)
    ensures forall t :: t in CommaList(items, false) ==> Plain(t)
  {
    if |items| > 1 {
      CommaListIsPlain(items[1..]);
    }
  }

  lemma {:induction false} UntypedIsCommaList(names: seq<string>, types: seq<Option<string>>)
    requires |names| == |types| && forall i :: 0 <= i < |types| ==> types[i] == None
    ensures TypedList(names, types, false) == CommaList(Identifiers(names), false)
  {
    if |names| > 1 {
      UntypedIsCommaList(names[1..], types[1..]);
      assert Identifiers(names)[1..] == Identifiers(names[1..]);
    }
  }

  predicate AllPlain(ts: seq<Token>) {
    forall t :: t in ts ==> Plain(t)
  }

  lemma AroundIsPlain(a: seq<Token>, b: seq<Token>, c: seq<Token>)
    requires AllPlain(a) && AllPlain(b) && AllPlain(c)
    ensures AllPlain(a + (b + c))
  {
    hide Plain;
  }

  lemma NamesArePlain(names: seq<string>)
    requires NamesOk(names)
    ensures AllPlain(CommaList(Identifiers(names), false))
  {
    CommaListIsPlain(Identifiers(names));
  }

  lemma WrittenIsPlain(ast: Ast)
    requires Expressible(ast)
    ensures Fits(PlainChoice(ast), ast)
    ensures AllPlain(Written(ast, PlainChoice(ast)))
  {
    match ast {
      case SelectFrom(columns, table) => SelectIsPlain(columns, table);
      case InsertInto(table, values) => InsertIsPlain(table, values);
      case CreateTable(table, columns) => CreateIsPlain(table, columns);
      case DeleteFrom(table) =>
    }
    hide AllPlain, Written;
  }

  lemma SelectIsPlain(columns: seq<string>, table: string)
    requires Expressible(SelectFrom(columns, table))
    ensures var ast := SelectFrom(columns, table);
            AllPlain(Written(ast, PlainChoice(ast)))
  {
    NamesArePlain(columns);
    assert AllPlain([From, Identifier(table)]);
    hide CommaList, AllPlain;
    AroundIsPlain([Select], CommaList(Identifiers(columns), false), [From, Identifier(table)]);
  }

  lemma InsertIsPlain(table: string, values: seq<string>)
    requires Expressible(InsertInto(table, values))
    ensures var ast := InsertInto(table, values);
            Fits(PlainChoice(ast), ast) && AllPlain(Written(ast, PlainChoice(ast)))
  {
    var c := PlainChoice(InsertInto(table, values));
    CommaListIsPlain(c.literals);
    assert AllPlain([Insert, Into, Identifier(table), Values, OpenParen]);
    hide CommaList, AllPlain;
    AroundIsPlain([Insert, Into, Identifier(table), Values, OpenParen], CommaList(c.literals, false), [CloseParen]);
  }

  lemma CreateIsPlain(table: string, columns: seq<string>)
    requires Expressible(CreateTable(table, columns))
    ensures var ast := CreateTable(table, columns);
            Fits(PlainChoice(ast), ast) && AllPlain(Written(ast, PlainChoice(ast)))
  {
    var c := PlainChoice(CreateTable(table, columns));
    UntypedIsCommaList(columns, c.types);
    NamesArePlain(columns);
    assert AllPlain([Create, Table, Identifier(table), OpenParen]);
    hide CommaList, TypedList, AllPlain;
    AroundIsPlain([Create, Table, Identifier(table), OpenParen], TypedList(columns, c.types, false), [CloseParen]);
  }

  /** Every expressible statement has a text that parses to it. */
  lemma RenderParsesBack(ast: Ast)
    requires Expressible(ast)
    ensures ParseText(Render(ast)) == Ok(ast)
  {
    var c := PlainChoice(ast);
    WrittenIsPlain(ast);
    var ts := Written(ast, c);
    var ps := Pieces(ts);
    hide Written, Plain, PlainChoice, Spelling, Spells, Wordy, Fits;
    forall i | 0 <= i < |ps|
      ensures Spells(ps[i].spelling, ps[i].token)
    {
      assert ts[i] in ts;
      PlainIsSpelled(ts[i]);
    }
    assert WellSpelled(ps);
    assert TokensOf(ps) == ts + [];
    TextParsesBack(ps, [], ast, c, []);
    assert Text(ps) + [] == Text(ps);
  }

  // ----- Parsing yields nothing else -----

  predicate Sound(t: Token) {
    match t
    case Identifier(name) => IsIdentifier(name)
    case StringLiteral(s) => Quotable(s)
    case _ => true
  }

  lemma QuotedIsSound(s: string)
    requires s != [] && s[0] == '\''
    ensures Sound(NextToken(s).0)
  {
    var n := Span(s[1..], IsOther);
    assert forall i :: 0 <= i < n ==> s[i + 1] == s[1..][i] && IsOther(s[1..][i]);
    hide NextToken;
    StringRead(s, n);
    assert forall i :: 0 <= i < n ==> s[1..n + 1][i] == s[1..][i];
  }

  lemma WordIsSound(s: string)
    requires s != [] && IsAlphabetic(s[0])
    ensures Sound(NextToken(s).0)
  {
    var n := Span(s, IsWordChar);
    hide NextToken;
    AtLetter(s, n);
    KeywordsHoldNoText(s[..n]);
    hide KEYWORDS, Uppercase;
  }

  lemma KeywordsHoldNoText(s: string)
    ensures Uppercase(s) in KEYWORDS ==> !WordToken(s).Identifier? && !WordToken(s).StringLiteral?
  {
  }

  lemma {:induction false} NextIsSound(s: string)
    ensures Sound(NextToken(s).0)
    decreases |s|
  {
    if s != [] {
      if s[0] == '\'' {
        QuotedIsSound(s);
      } else if IsAlphabetic(s[0]) {
        WordIsSound(s);
      } else if IsDigit(s[0]) {
        AtDigit(s, Span(s, IsDigit));
      } else {
        hide Sound, WordToken, NumberOf;
        if IsSpace(s[0]) || Punctuation(s[0]).None? {
          NextIsSound(s[1..]);
        } else {
          PunctuationIsSound(s);
        }
      }
    }
  }

  lemma PunctuationIsSound(s: string)
    requires s != [] && !IsSpace(s[0]) && Punctuation(s[0]).Some?
    ensures Sound(NextToken(s).0)
  {
    assert NextToken(s).0 == Punctuation(s[0]).value;
    hide NextToken;
  }

  lemma {:induction false} TokensAreSound(s: string)
    ensures forall t :: t in Tokens(s) ==> Sound(t)
    decreases |s|
  {
    NextIsSound(s);
    PeelToken(s);
    hide NextToken, Sound;
    if NextToken(s).0 != Eof {
      TokensAreSound(NextToken(s).1);
    }
  }

  predicate AllSound(ts: seq<Token>) {
    forall t :: t in ts ==> Sound(t)
  }

  lemma HeadIsSound(ts: seq<Token>)
    requires AllSound(ts)
    ensures Sound(Head(ts)) && AllSound(Tail(ts))
  {
    assert Sound(Eof);
    hide Sound;
    assert ts != [] ==> ts[0] in ts;
  }

  lemma {:induction false} NamesAreSound(ts: seq<Token>)
    requires AllSound(ts)
    ensures NamesOk(Names(ts).0)
    decreases |ts|
  {
    hide AllSound, IsIdentifier;
    HeadIsSound(ts);
    if Head(ts).Identifier? && Head(Tail(ts)) == Comma {
      HeadIsSound(Tail(ts));
      NamesAreSound(Tail(Tail(ts)));
    }
  }

  lemma {:induction false} TypedNamesAreSound(ts: seq<Token>)
    requires AllSound(ts)
    ensures NamesOk(TypedNames(ts).0)
    decreases |ts|
  {
    hide AllSound, IsIdentifier;
    HeadIsSound(ts);
    HeadIsSound(Tail(ts));
    if Head(ts).Identifier? {
      var after := if Head(Tail(ts)).Identifier? then Tail(Tail(ts)) else Tail(ts);
      HeadIsSound(after);
      if Head(after) == Comma {
        TypedNamesAreSound(Tail(after));
      }
    }
  }

  lemma {:induction false} DecimalDigitsAreQuotable(n: nat)
    ensures Quotable(DecimalDigits(n))
  {
    if n >= 10 {
      DecimalDigitsAreQuotable(n / 10);
    }
  }

  lemma ValueIsQuotable(t: Token)
    requires IsValue(t) && Sound(t)
    ensures Quotable(ValueOf(t))
  {
    if t.Number? {
      var n: int := t.n;
      DecimalDigitsAreQuotable(if n < 0 then -n else n);
    }
  }

  lemma {:induction false} ValuesAreQuotable(ts: seq<Token>)
    requires AllSound(ts)
    ensures forall i :: 0 <= i < |ValueList(ts).0| ==> Quotable(ValueList(ts).0[i])
    decreases |ts|
  {
    hide AllSound, Quotable, ValueOf;
    HeadIsSound(ts);
    if IsValue(Head(ts)) {
      ValueIsQuotable(Head(ts));
      if Head(Tail(ts)) == Comma {
        HeadIsSound(Tail(ts));
        ValuesAreQuotable(Tail(Tail(ts)));
      }
    }
  }

  /** The parser accepts only statements that can be written. */
  lemma ParsedIsExpressible(s: string)
    requires ParseText(s).Ok?
    ensures Expressible(ParseText(s).value)
  {
    var ts := Tokens(s);
    TokensAreSound(s);
    assert AllSound(ts);
    hide Tokens, AllSound, IsIdentifier, Quotable, Names, TypedNames, ValueList;
    match Head(ts) {
      case Select => SelectedIsExpressible(ts);
      case Insert => InsertedIsExpressible(ts);
      case Create => CreatedIsExpressible(ts);
      case Delete =>
        HeadIsSound(Tail(Tail(ts))) by {
          HeadIsSound(ts);
          HeadIsSound(Tail(ts));
        }
    }
  }

  lemma SelectedIsExpressible(ts: seq<Token>)
    requires AllSound(ts) && SelectAst(ts).Ok?
    ensures Expressible(SelectAst(ts).value)
  {
    hide AllSound, IsIdentifier, Names;
    HeadIsSound(ts);
    NamesAreSound(Tail(ts));
    NamesLeaveSound(Tail(ts));
    HeadIsSound(Names(Tail(ts)).1);
    HeadIsSound(Tail(Names(Tail(ts)).1));
  }

  lemma {:induction false} NamesLeaveSound(ts: seq<Token>)
    requires AllSound(ts)
    ensures AllSound(Names(ts).1)
    decreases |ts|
  {
    hide AllSound;
    HeadIsSound(ts);
    if Head(ts).Identifier? && Head(Tail(ts)) == Comma {
      HeadIsSound(Tail(ts));
      NamesLeaveSound(Tail(Tail(ts)));
    }
  }

  lemma InsertedIsExpressible(ts: seq<Token>)
    requires AllSound(ts) && InsertAst(ts).Ok?
    ensures Expressible(InsertAst(ts).value)
  {
    hide AllSound, IsIdentifier, ValueList, Quotable;
    HeadIsSound(ts);
    HeadIsSound(Tail(ts));
    HeadIsSound(Tail(Tail(ts)));
    HeadIsSound(Tail(Tail(Tail(ts))));
    HeadIsSound(Tail(Tail(Tail(Tail(ts)))));
    ValuesAreQuotable(Tail(Tail(Tail(Tail(Tail(ts))))));
  }

  lemma CreatedIsExpressible(ts: seq<Token>)
    requires AllSound(ts) && CreateAst(ts).Ok?
    ensures Expressible(CreateAst(ts).value)
  {
    hide AllSound, IsIdentifier, TypedNames;
    HeadIsSound(ts);
    HeadIsSound(Tail(ts));
    HeadIsSound(Tail(Tail(ts)));
    HeadIsSound(Tail(Tail(Tail(ts))));
    TypedNamesAreSound(Tail(Tail(Tail(Tail(ts)))));
  }

  /** So a statement is what some text parses to exactly when it is expressible, and writing out what was
      parsed never changes it. */
  lemma ExpressibleIff(ast: Ast)
    ensures Expressible(ast) <==> exists s :: ParseText(s) == Ok(ast)
  {
    if Expressible(ast) {
      RenderParsesBack(ast);
    }
    forall s | ParseText(s) == Ok(ast)
      ensures Expressible(ast)
    {
      ParsedIsExpressible(s);
    }
  }
}
