/** Statements of the SQL shell: the parser and the texts it reads back (wasdb_cli/src/parser.rs). */
module SqlParser {
  import opened Util
  import opened SqlLexer

  datatype Ast =
    | SelectFrom(columns: seq<string>, table: string)
    | InsertInto(table: string, values: seq<string>)
    | CreateTable(table: string, columns: seq<string>)
    | DeleteFrom(table: string)

  datatype ParseError = Expected(want: Token, found: Token) | UnexpectedStart(found: Token) | NoTableName

  type Parsed = Result<Ast, ParseError>

  // ----- The grammar, on token lists -----

  function Head(ts: seq<Token>): Token {
    if ts == [] then Eof else ts[0]
  }

  function Tail(ts: seq<Token>): (r: seq<Token>)
    ensures ts != [] ==> |r| < |ts|
  {
    if ts == [] then [] else ts[1..]
  }

  function DecimalDigits(n: nat): string {
    (if n < 10 then [] else DecimalDigits(n / 10)) + [('0' as int + n % 10) as char]
  }

  /** An integer as `to_string` writes it. */
  function Decimal(n: int): string {
    if n < 0 then "-" + DecimalDigits(-n) else DecimalDigits(n)
  }

  /** The list of a select: names, each but the last followed by a comma. A comma may end it. */
  function Names(ts: seq<Token>): (r: (seq<string>, seq<Token>))
    ensures |r.1| <= |ts|
  {
    if !Head(ts).Identifier? then ([], ts)
    else if Head(Tail(ts)) == Comma then
      var (more, rest) := Names(Tail(Tail(ts)));
      ([Head(ts).name] + more, rest)
    else ([Head(ts).name], Tail(ts))
  }

  /** The columns of a create: names, each perhaps followed by a type, which is skipped. */
  function TypedNames(ts: seq<Token>): (r: (seq<string>, seq<Token>))
    ensures |r.1| <= |ts|
  {
    if !Head(ts).Identifier? then ([], ts)
    else
      var after := if Head(Tail(ts)).Identifier? then Tail(Tail(ts)) else Tail(ts);
      if Head(after) == Comma then
        var (more, rest) := TypedNames(Tail(after));
        ([Head(ts).name] + more, rest)
      else ([Head(ts).name], after)
  }

  predicate IsValue(t: Token) {
    t.Number? || t.StringLiteral?
  }

  function ValueOf(t: Token): string
    requires IsValue(t)
  {
    if t.Number? then Decimal(t.n) else t.s
  }

  function ValueList(ts: seq<Token>): (r: (seq<string>, seq<Token>))
    ensures |r.1| <= |ts|
  {
    if !IsValue(Head(ts)) then ([], ts)
    else if Head(Tail(ts)) == Comma then
      var (more, rest) := ValueList(Tail(Tail(ts)));
      ([ValueOf(Head(ts))] + more, rest)
    else ([ValueOf(Head(ts))], Tail(ts))
  }

  function Expect(ts: seq<Token>, want: Token): Result<seq<Token>, ParseError> {
    if Head(ts) == want then Ok(Tail(ts)) else Err(Expected(want, Head(ts)))
  }

  function SelectAst(ts: seq<Token>): Parsed {
    var (columns, rest) := Names(Tail(ts));
    var r := Expect(rest, From);
    if r.Err? then Err(r.error)
    else if !Head(r.value).Identifier? then Err(NoTableName)
    else Ok(SelectFrom(columns, Head(r.value).name))
  }

  /** The values and the closing parenthesis of an insert. */
  function InsertBody(table: string, ts: seq<Token>): Parsed {
    var (values, rest) := ValueList(ts);
    var r := Expect(rest, CloseParen);
    if r.Err? then Err(r.error) else Ok(InsertInto(table, values))
  }

  function InsertAst(ts: seq<Token>): Parsed {
    var r := Expect(Tail(ts), Into);
    if r.Err? then Err(r.error)
    else if !Head(r.value).Identifier? then Err(NoTableName)
    else
      var v := Expect(Tail(r.value), Values);
      if v.Err? then Err(v.error) else
      var p := Expect(v.value, OpenParen);
      if p.Err? then Err(p.error) else InsertBody(Head(r.value).name, p.value)
  }

  function CreateBody(table: string, ts: seq<Token>): Parsed {
    var (columns, rest) := TypedNames(ts);
    var r := Expect(rest, CloseParen);
    if r.Err? then Err(r.error) else Ok(CreateTable(table, columns))
  }

  function CreateAst(ts: seq<Token>): Parsed {
    var r := Expect(Tail(ts), Table);
    if r.Err? then Err(r.error)
    else if !Head(r.value).Identifier? then Err(NoTableName)
    else
      var p := Expect(Tail(r.value), OpenParen);
      if p.Err? then Err(p.error) else CreateBody(Head(r.value).name, p.value)
  }

  function DeleteAst(ts: seq<Token>): Parsed {
    var r := Expect(Tail(ts), From);
    if r.Err? then Err(r.error)
    else if !Head(r.value).Identifier? then Err(NoTableName)
    else Ok(DeleteFrom(Head(r.value).name))
  }

  /** What a list of tokens parses to; tokens after the statement are not looked at. */
  function AstOf(ts: seq<Token>): Parsed {
    match Head(ts)
    case Select => SelectAst(ts)
    case Insert => InsertAst(ts)
    case Create => CreateAst(ts)
    case Delete => DeleteAst(ts)
    case _ => Err(UnexpectedStart(Head(ts)))
  }

  lemma TailIsShorter(ts: seq<Token>)
    ensures Head(ts) != Eof ==> |Tail(ts)| < |ts|
    ensures |Tail(ts)| <= |ts| && |Tail(Tail(ts))| <= |Tail(ts)| && |Tail(Tail(Tail(ts)))| <= |Tail(Tail(ts))|
  {
  }

  // One turn of each list loop: `done` is what the loop has collected.

  lemma Regather(done: seq<string>, x: string, more: seq<string>)
    ensures done + ([x] + more) == done + [x] + more && done + [] == done
  {
  }

  lemma NamesStep(done: seq<string>, ts: seq<Token>)
    ensures var r := Names(ts);
            if !Head(ts).Identifier? then done + r.0 == done && r.1 == ts
            else if Head(Tail(ts)) == Comma then
              done + r.0 == done + [Head(ts).name] + Names(Tail(Tail(ts))).0 && r.1 == Names(Tail(Tail(ts))).1
            else done + r.0 == done + [Head(ts).name] && r.1 == Tail(ts)
  {
    NamesUnfold(ts);
    hide Names, Head, Tail;
    Regather(done, if Head(ts).Identifier? then Head(ts).name else "", Names(Tail(Tail(ts))).0);
  }

  lemma NamesUnfold(ts: seq<Token>)
    ensures Names(ts) ==
            if !Head(ts).Identifier? then ([], ts)
            else if Head(Tail(ts)) == Comma then ([Head(ts).name] + Names(Tail(Tail(ts))).0, Names(Tail(Tail(ts))).1)
            else ([Head(ts).name], Tail(ts))
  {
    hide Head, Tail;
  }

  lemma TypedNamesStep(done: seq<string>, ts: seq<Token>)
    ensures var r := TypedNames(ts);
            if !Head(ts).Identifier? then done + r.0 == done && r.1 == ts
            else
              var after := if Head(Tail(ts)).Identifier? then Tail(Tail(ts)) else Tail(ts);
              if Head(after) == Comma then
                done + r.0 == done + [Head(ts).name] + TypedNames(Tail(after)).0 && r.1 == TypedNames(Tail(after)).1
              else done + r.0 == done + [Head(ts).name] && r.1 == after
  {
    var after := if Head(Tail(ts)).Identifier? then Tail(Tail(ts)) else Tail(ts);
    TypedNamesUnfold(ts, after);
    hide TypedNames, Head, Tail;
    Regather(done, if Head(ts).Identifier? then Head(ts).name else "", TypedNames(Tail(after)).0);
  }

  lemma TypedNamesUnfold(ts: seq<Token>, after: seq<Token>)
    requires after == if Head(Tail(ts)).Identifier? then Tail(Tail(ts)) else Tail(ts)
    ensures TypedNames(ts) ==
            if !Head(ts).Identifier? then ([], ts)
            else if Head(after) == Comma then ([Head(ts).name] + TypedNames(Tail(after)).0, TypedNames(Tail(after)).1)
            else ([Head(ts).name], after)
  {
    hide Head, Tail;
  }

  lemma ValueListStep(done: seq<string>, ts: seq<Token>)
    ensures var r := ValueList(ts);
            if !IsValue(Head(ts)) then done + r.0 == done && r.1 == ts
            else if Head(Tail(ts)) == Comma then
              && done + r.0 == done + [ValueOf(Head(ts))] + ValueList(Tail(Tail(ts))).0
              && r.1 == ValueList(Tail(Tail(ts))).1
            else done + r.0 == done + [ValueOf(Head(ts))] && r.1 == Tail(ts)
  {
    ValueListUnfold(ts);
    hide ValueList, Head, Tail, IsValue, ValueOf;
    Regather(done, if IsValue(Head(ts)) then ValueOf(Head(ts)) else "", ValueList(Tail(Tail(ts))).0);
  }

  lemma ValueListUnfold(ts: seq<Token>)
    ensures ValueList(ts) ==
            if !IsValue(Head(ts)) then ([], ts)
            else if Head(Tail(ts)) == Comma then
              ([ValueOf(Head(ts))] + ValueList(Tail(Tail(ts))).0, ValueList(Tail(Tail(ts))).1)
            else ([ValueOf(Head(ts))], Tail(ts))
  {
    hide Head, Tail, IsValue, ValueOf;
  }

  /** The tokens from a current one on, and how reading one more moves along them. */
  function StreamOf(current: Token, chars: string): seq<Token> {
    if current == Eof then [] else [current] + Tokens(chars)
  }

  lemma StreamMoves(current: Token, chars: string)
    requires current == Eof ==> chars == []
    ensures var (t, rest) := NextToken(chars);
            (t == Eof ==> rest == []) && StreamOf(t, rest) == Tail(StreamOf(current, chars))
  {
    hide NextToken, Tokens;
    PeelToken(chars);
    if chars == [] {
      NoTextNoToken(chars);
    }
  }

  lemma NoTextNoToken(chars: string)
    requires chars == []
    ensures NextToken(chars) == (Eof, chars)
  {
    hide NextToken;
  }

  // ----- The parser object -----

  class Parser {
    const lexer: Lexer
    var currentToken: Token

    ghost predicate Valid()
      reads this, lexer
    {
      currentToken == Eof ==> lexer.chars == []
    }

    /** The tokens from the current one on. */
    ghost function Stream(): seq<Token>
      reads this, lexer
    {
      StreamOf(currentToken, lexer.chars)
    }

    constructor (input: string)
      ensures Valid() && Stream() == Tokens(input) && fresh(lexer)
    {
      var l := new Lexer(input);
      var t := l.Next();
      lexer := l;
      currentToken := t;
      new;
      PeelToken(input);
    }

    method Advance()
      requires Valid()
      modifies this, lexer
      ensures Valid() && Stream() == Tail(old(Stream()))
    {
      hide NextToken, StreamOf, Tail;
      StreamMoves(currentToken, lexer.chars);
      currentToken := lexer.Next();
    }

    method Require(want: Token) returns (r: Result<(), ParseError>)
      requires Valid() && want != Eof && !want.Identifier? && !want.Number? && !want.StringLiteral?
      modifies this, lexer
      ensures Valid()
      ensures var e := Expect(old(Stream()), want);
              if e.Ok? then r == Ok(()) && Stream() == e.value else r == Err(e.error)
    {
      if currentToken == want {
        Advance();
        r := Ok(());
      } else {
        r := Err(Expected(want, currentToken));
      }
    }

    method TableName() returns (r: Result<string, ParseError>)
      requires Valid()
      modifies this, lexer
      ensures Valid()
      ensures var ts := old(Stream());
              if Head(ts).Identifier? then r == Ok(Head(ts).name) && Stream() == Tail(ts) else r == Err(NoTableName)
    {
      if currentToken.Identifier? {
        r := Ok(currentToken.name);
        Advance();
      } else {
        r := Err(NoTableName);
      }
    }

    lemma CurrentIsHead()
      ensures currentToken == Head(Stream())
    {
    }

    method ReadNames() returns (columns: seq<string>)
      requires Valid()
      modifies this, lexer
      ensures Valid() && columns == Names(old(Stream())).0 && Stream() == Names(old(Stream())).1
    {
      hide Parser.Stream, Parser.Valid, Names, Head, Tail;
      columns := [];
      CurrentIsHead();
      while currentToken.Identifier?
        invariant Valid() && currentToken == Head(Stream())
        invariant columns + Names(Stream()).0 == Names(old(Stream())).0
        invariant Names(Stream()).1 == Names(old(Stream())).1
        decreases |Stream()|
      {
        NamesStep(columns, Stream());
        TailIsShorter(Stream());
        columns := columns + [currentToken.name];
        Advance();
        CurrentIsHead();
        if currentToken == Comma {
          Advance();
          CurrentIsHead();
        } else {
          return;
        }
      }
      NamesStep(columns, Stream());
    }

    method ReadTypedNames() returns (columns: seq<string>)
      requires Valid()
      modifies this, lexer
      ensures Valid() && columns == TypedNames(old(Stream())).0 && Stream() == TypedNames(old(Stream())).1
    {
      hide Parser.Stream, Parser.Valid, TypedNames, Head, Tail;
      columns := [];
      CurrentIsHead();
      while currentToken.Identifier?
        invariant Valid() && currentToken == Head(Stream())
        invariant columns + TypedNames(Stream()).0 == TypedNames(old(Stream())).0
        invariant TypedNames(Stream()).1 == TypedNames(old(Stream())).1
        decreases |Stream()|
      {
        TypedNamesStep(columns, Stream());
        TailIsShorter(Stream());
        columns := columns + [currentToken.name];
        Advance();
        CurrentIsHead();
        if currentToken.Identifier? {
          Advance();
          CurrentIsHead();
        }
        if currentToken == Comma {
          Advance();
          CurrentIsHead();
        } else {
          return;
        }
      }
      TypedNamesStep(columns, Stream());
    }

    method ReadValues() returns (values: seq<string>)
      requires Valid()
      modifies this, lexer
      ensures Valid() && values == ValueList(old(Stream())).0 && Stream() == ValueList(old(Stream())).1
    {
      hide Parser.Stream, Parser.Valid, ValueList, Head, Tail;
      values := [];
      CurrentIsHead();
      while true
        invariant Valid() && currentToken == Head(Stream())
        invariant values + ValueList(Stream()).0 == ValueList(old(Stream())).0
        invariant ValueList(Stream()).1 == ValueList(old(Stream())).1
        decreases |Stream()|
      {
        ValueListStep(values, Stream());
        TailIsShorter(Stream());
        if currentToken.Number? {
          values := values + [Decimal(currentToken.n)];
        } else if currentToken.StringLiteral? {
          values := values + [currentToken.s];
        } else {
          return;
        }
        Advance();
        CurrentIsHead();
        if currentToken == Comma {
          Advance();
          CurrentIsHead();
        } else {
          return;
        }
      }
    }

    method ParseSelect() returns (r: Parsed)
      requires Valid() && currentToken == Select
      modifies this, lexer
      ensures r == SelectAst(old(Stream()))
    {
      CurrentIsHead();
      hide Parser.Stream, Parser.Valid, Names, TypedNames, ValueList;
      var e := Require(Select);
      var columns := ReadNames();
      e := Require(From);
      if e.Err? {
        return Err(e.error);
      }
      var table := TableName();
      if table.Err? {
        return Err(table.error);
      }
      r := Ok(SelectFrom(columns, table.value));
    }

    method ParseInsert() returns (r: Parsed)
      requires Valid() && currentToken == Insert
      modifies this, lexer
      ensures r == InsertAst(old(Stream()))
    {
      CurrentIsHead();
      hide Parser.Stream, Parser.Valid, Names, TypedNames, ValueList;
      var e := Require(Insert);
      e := Require(Into);
      if e.Err? {
        return Err(e.error);
      }
      var table := TableName();
      if table.Err? {
        return Err(table.error);
      }
      e := Require(Values);
      if e.Err? {
        return Err(e.error);
      }
      e := Require(OpenParen);
      if e.Err? {
        return Err(e.error);
      }
      var values := ReadValues();
      e := Require(CloseParen);
      if e.Err? {
        return Err(e.error);
      }
      r := Ok(InsertInto(table.value, values));
    }

    method ParseCreate() returns (r: Parsed)
      requires Valid() && currentToken == Create
      modifies this, lexer
      ensures r == CreateAst(old(Stream()))
    {
      CurrentIsHead();
      hide Parser.Stream, Parser.Valid, Names, TypedNames, ValueList;
      var e := Require(Create);
      e := Require(Table);
      if e.Err? {
        return Err(e.error);
      }
      var table := TableName();
      if table.Err? {
        return Err(table.error);
      }
      e := Require(OpenParen);
      if e.Err? {
        return Err(e.error);
      }
      var columns := ReadTypedNames();
      e := Require(CloseParen);
      if e.Err? {
        return Err(e.error);
      }
      r := Ok(CreateTable(table.value, columns));
    }

    method ParseDelete() returns (r: Parsed)
      requires Valid() && currentToken == Delete
      modifies this, lexer
      ensures r == DeleteAst(old(Stream()))
    {
      CurrentIsHead();
      hide Parser.Stream, Parser.Valid, Names, TypedNames, ValueList;
      var e := Require(Delete);
      e := Require(From);
      if e.Err? {
        return Err(e.error);
      }
      var table := TableName();
      if table.Err? {
        return Err(table.error);
      }
      r := Ok(DeleteFrom(table.value));
    }

    method Parse() returns (r: Parsed)
      requires Valid()
      modifies this, lexer
      ensures r == AstOf(old(Stream()))
    {
      match currentToken
      case Select => r := ParseSelect();
      case Insert => r := ParseInsert();
      case Create => r := ParseCreate();
      case Delete => r := ParseDelete();
      case _ => r := Err(UnexpectedStart(currentToken));
    }
  }
}
