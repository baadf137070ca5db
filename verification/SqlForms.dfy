/** The token lists that the parser accepts (wasdb_cli/src/parser.rs). */
module SqlForms {
  import opened Util
  import opened SqlLexer
  import opened SqlParser
  import opened SqlRoundTrip

  ghost predicate IsForm(ts: seq<Token>, ast: Ast, c: Choice, more: seq<Token>) {
    Fits(c, ast) && ts == Written(ast, c) + more
  }

  /** The tokens begin with a way to write the statement. */
  ghost predicate Begins(ts: seq<Token>, ast: Ast) {
    exists c, more :: IsForm(ts, ast, c, more)
  }

  lemma HeadAndTail(ts: seq<Token>)
    ensures Head(ts) != Eof ==> ts == [Head(ts)] + Tail(ts)
  {
  }

  // ----- What the list loops have read -----

  lemma TwoAndMore(a: Token, b: Token, more: seq<Token>, items: seq<Token>, comma: bool)
    requires items != []
    ensures [a] + ([b] + (CommaList(items, comma) + more)) == ([a, b] + CommaList(items, comma)) + more
  {
    hide CommaList;
  }

  lemma ListGrows(item: Token, items: seq<Token>, comma: bool, rest: seq<Token>)
    ensures [item] + ([Comma] + (CommaList(items, comma) + rest)) ==
            CommaList([item] + items, if items == [] then true else comma) + rest
  {
    if items == [] {
      assert CommaList(items, comma) + rest == rest;
      assert CommaList([item] + items, true) == [item, Comma];
    } else {
      assert ([item] + items)[1..] == items;
      TwoAndMore(item, Comma, rest, items, comma);
    }
  }

  lemma ListEnds(item: Token, rest: seq<Token>)
    ensures [item] + rest == CommaList([item], false) + rest
  {
  }

  lemma ListIsEmpty(rest: seq<Token>)
    ensures CommaList([], false) + rest == rest
  {
  }

  lemma IdentifiersGrow(name: string, names: seq<string>)
    ensures Identifiers([name] + names) == [Identifier(name)] + Identifiers(names)
    ensures |Identifiers(names)| == |names|
  {
  }

  lemma {:induction false} NamesWereRead(ts: seq<Token>) returns (comma: bool)
    ensures ts == CommaList(Identifiers(Names(ts).0), comma) + Names(ts).1
    decreases |ts|
  {
    NamesUnfold(ts);
    HeadAndTail(ts);
    HeadAndTail(Tail(ts));
    TailIsShorter(ts);
    hide Names, CommaList, Identifiers, Head, Tail;
    comma := false;
    if !Head(ts).Identifier? {
      IdentifiersNone();
      ListIsEmpty(ts);
    } else if Head(Tail(ts)) == Comma {
      var more := Tail(Tail(ts));
      comma := NamesWereRead(more);
      IdentifiersGrow(Head(ts).name, Names(more).0);
      ListGrows(Head(ts), Identifiers(Names(more).0), comma, Names(more).1);
      comma := if Identifiers(Names(more).0) == [] then true else comma;
    } else {
      IdentifiersNone();
      IdentifiersGrow(Head(ts).name, []);
      assert [Head(ts).name] + [] == [Head(ts).name] && [Head(ts)] + [] == [Head(ts)];
      ListEnds(Head(ts), Tail(ts));
    }
  }

  lemma IdentifiersNone()
    ensures Identifiers([]) == []
  {
  }

  ghost predicate AreLiterals(literals: seq<Token>, values: seq<string>) {
    && |literals| == |values|
    && forall i :: 0 <= i < |values| ==> IsValue(literals[i]) && ValueOf(literals[i]) == values[i]
  }

  lemma {:induction false} ValuesWereRead(ts: seq<Token>) returns (literals: seq<Token>, comma: bool)
    ensures AreLiterals(literals, ValueList(ts).0)
    ensures ts == CommaList(literals, comma) + ValueList(ts).1
    decreases |ts|
  {
    ValueListUnfold(ts);
    HeadAndTail(ts);
    HeadAndTail(Tail(ts));
    TailIsShorter(ts);
    ValueIsToken(Head(ts));
    hide ValueList, CommaList, Head, Tail, IsValue, ValueOf;
    literals, comma := [], false;
    if !IsValue(Head(ts)) {
      ListIsEmpty(ts);
    } else if Head(Tail(ts)) == Comma {
      var more := Tail(Tail(ts));
      literals, comma := ValuesWereRead(more);
      ListGrows(Head(ts), literals, comma, ValueList(more).1);
      comma := if literals == [] then true else comma;
      literals := [Head(ts)] + literals;
    } else {
      literals := [Head(ts)];
      ListEnds(Head(ts), Tail(ts));
    }
  }

  lemma ValueIsToken(t: Token)
    ensures IsValue(t) ==> t != Eof
  {
  }

  lemma TypedNameWas(ts: seq<Token>) returns (typed: Option<string>, after: seq<Token>)
    requires Head(ts).Identifier?
    ensures after == if Head(Tail(ts)).Identifier? then Tail(Tail(ts)) else Tail(ts)
    ensures ts == TypedName(Head(ts).name, typed) + after && |after| < |ts|
  {
    HeadAndTail(ts);
    HeadAndTail(Tail(ts));
    if Head(Tail(ts)).Identifier? {
      typed, after := Some(Head(Tail(ts)).name), Tail(Tail(ts));
    } else {
      typed, after := None, Tail(ts);
    }
  }

  lemma TypedListGrows(name: string, typed: Option<string>, names: seq<string>, types: seq<Option<string>>, comma: bool,
                       rest: seq<Token>)
    requires |names| == |types|
    ensures TypedName(name, typed) + ([Comma] + (TypedList(names, types, comma) + rest)) ==
            TypedList([name] + names, [typed] + types, if names == [] then true else comma) + rest
  {
    var names', types' := [name] + names, [typed] + types;
    assert names'[1..] == names && types'[1..] == types;
    if names == [] {
      assert TypedList(names, types, comma) + rest == rest;
      TypedListUnfold(names', types', true, rest);
    } else {
      TypedListUnfold(names', types', comma, rest);
    }
    hide TypedName, TypedList;
  }

  lemma TypedListEnds(name: string, typed: Option<string>, rest: seq<Token>)
    ensures TypedName(name, typed) + rest == TypedList([name], [typed], false) + rest
  {
    hide TypedName;
  }

  lemma TypedListIsEmpty(rest: seq<Token>)
    ensures TypedList([], [], false) + rest == rest
  {
  }

  lemma {:induction false} TypedNamesWereRead(ts: seq<Token>) returns (types: seq<Option<string>>, comma: bool)
    ensures |types| == |TypedNames(ts).0|
    ensures ts == TypedList(TypedNames(ts).0, types, comma) + TypedNames(ts).1
    decreases |ts|
  {
    types, comma := [], false;
    if !Head(ts).Identifier? {
      TypedNamesUnfold(ts, if Head(Tail(ts)).Identifier? then Tail(Tail(ts)) else Tail(ts));
      hide TypedNames, TypedList, Head, Tail;
      TypedListIsEmpty(ts);
    } else {
      var typed, after := TypedNameWas(ts);
      TypedNamesUnfold(ts, after);
      HeadAndTail(after);
      TailIsShorter(after);
      hide TypedNames, TypedList, TypedName, Head, Tail;
      if Head(after) == Comma {
        types, comma := TypedNamesWereRead(Tail(after));
        TypedListGrows(Head(ts).name, typed, TypedNames(Tail(after)).0, types, comma, TypedNames(Tail(after)).1);
        comma := if TypedNames(Tail(after)).0 == [] then true else comma;
        types := [typed] + types;
      } else {
        types := [typed];
        TypedListEnds(Head(ts).name, typed, after);
      }
    }
  }

  // ----- What the statements have read -----

  lemma Expects(ts: seq<Token>, want: Token)
    requires Expect(ts, want).Ok? && want != Eof
    ensures ts == [want] + Expect(ts, want).value
  {
    HeadAndTail(ts);
  }

  lemma Around(first: seq<Token>, items: seq<Token>, last: seq<Token>, more: seq<Token>)
    ensures first + (items + (last + more)) == (first + (items + last)) + more
  {
  }

  lemma Two(a: Token, b: Token, more: seq<Token>)
    ensures [a] + ([b] + more) == [a, b] + more
  {
  }

  lemma SelectTokens(ts: seq<Token>, ast: Ast) returns (columns: seq<string>, table: string, rest: seq<Token>,
                                                        more: seq<Token>)
    requires Head(ts) == Select && SelectAst(ts) == Ok(ast)
    ensures ast == SelectFrom(columns, table) && columns == Names(Tail(ts)).0 && rest == Names(Tail(ts)).1
    ensures rest == [From] + ([Identifier(table)] + more)
  {
    var from := Expect(Names(Tail(ts)).1, From);
    Expects(Names(Tail(ts)).1, From);
    HeadAndTail(from.value);
    hide Names, Head, Tail, Expect;
    columns, rest := Names(Tail(ts)).0, Names(Tail(ts)).1;
    table, more := Head(from.value).name, Tail(from.value);
  }

  lemma SelectWasWritten(ts: seq<Token>, ast: Ast)
    requires Head(ts) == Select && SelectAst(ts) == Ok(ast)
    ensures Begins(ts, ast)
  {
    HeadAndTail(ts);
    hide Names, CommaList, Head, Tail, SelectAst, Identifiers;
    var columns, table, rest, more := SelectTokens(ts, ast);
    var comma := NamesWereRead(Tail(ts));
    Two(From, Identifier(table), more);
    Around([Select], CommaList(Identifiers(columns), comma), [From, Identifier(table)], more);
    assert IsForm(ts, ast, Choice([], [], comma), more);
  }

  /** The tokens before the list of an insert. */
  lemma InsertTokens(ts: seq<Token>, ast: Ast) returns (table: string, inner: seq<Token>)
    requires Head(ts) == Insert && InsertAst(ts) == Ok(ast)
    ensures ts == [Insert] + ([Into] + ([Identifier(table)] + ([Values] + ([OpenParen] + inner))))
    ensures InsertBody(table, inner) == Ok(ast)
  {
    var into := Expect(Tail(ts), Into);
    var name := into.value;
    var values := Expect(Tail(name), Values);
    var open := Expect(values.value, OpenParen);
    HeadAndTail(ts);
    Expects(Tail(ts), Into);
    HeadAndTail(name);
    Expects(Tail(name), Values);
    Expects(values.value, OpenParen);
    hide Head, Tail, Expect, InsertBody;
    table, inner := Head(name).name, open.value;
  }

  lemma InsertBodyTokens(table: string, inner: seq<Token>, ast: Ast) returns (values: seq<string>, more: seq<Token>)
    requires InsertBody(table, inner) == Ok(ast)
    ensures ast == InsertInto(table, values)
    ensures values == ValueList(inner).0 && ValueList(inner).1 == [CloseParen] + more
  {
    var close := Expect(ValueList(inner).1, CloseParen);
    Expects(ValueList(inner).1, CloseParen);
    hide Head, Tail, Expect, ValueList;
    values, more := ValueList(inner).0, close.value;
  }

  lemma Five(a: Token, b: Token, c: Token, d: Token, e: Token, more: seq<Token>)
    ensures [a] + ([b] + ([c] + ([d] + ([e] + more)))) == [a, b, c, d, e] + more
  {
  }

  lemma Four(a: Token, b: Token, c: Token, d: Token, more: seq<Token>)
    ensures [a] + ([b] + ([c] + ([d] + more))) == [a, b, c, d] + more
  {
  }

  lemma InsertWasWritten(ts: seq<Token>, ast: Ast)
    requires Head(ts) == Insert && InsertAst(ts) == Ok(ast)
    ensures Begins(ts, ast)
  {
    hide ValueList, CommaList, Head, Tail, InsertAst, InsertBody, IsValue, ValueOf;
    var table, inner := InsertTokens(ts, ast);
    var values, more := InsertBodyTokens(table, inner, ast);
    var literals, comma := ValuesWereRead(inner);
    Five(Insert, Into, Identifier(table), Values, OpenParen, inner);
    Around([Insert, Into, Identifier(table), Values, OpenParen], CommaList(literals, comma), [CloseParen], more);
    assert IsForm(ts, ast, Choice(literals, [], comma), more);
  }

  /** The tokens before the list of a create. */
  lemma CreateTokens(ts: seq<Token>, ast: Ast) returns (table: string, inner: seq<Token>)
    requires Head(ts) == Create && CreateAst(ts) == Ok(ast)
    ensures ts == [Create] + ([Table] + ([Identifier(table)] + ([OpenParen] + inner)))
    ensures CreateBody(table, inner) == Ok(ast)
  {
    var word := Expect(Tail(ts), Table);
    var name := word.value;
    var open := Expect(Tail(name), OpenParen);
    HeadAndTail(ts);
    Expects(Tail(ts), Table);
    HeadAndTail(name);
    Expects(Tail(name), OpenParen);
    hide Head, Tail, Expect, CreateBody;
    table, inner := Head(name).name, open.value;
  }

  lemma CreateBodyTokens(table: string, inner: seq<Token>, ast: Ast) returns (columns: seq<string>, more: seq<Token>)
    requires CreateBody(table, inner) == Ok(ast)
    ensures ast == CreateTable(table, columns) && columns == TypedNames(inner).0
    ensures TypedNames(inner).1 == [CloseParen] + more
  {
    var close := Expect(TypedNames(inner).1, CloseParen);
    Expects(TypedNames(inner).1, CloseParen);
    hide Head, Tail, Expect, TypedNames;
    columns, more := TypedNames(inner).0, close.value;
  }

  lemma CreateWasWritten(ts: seq<Token>, ast: Ast)
    requires Head(ts) == Create && CreateAst(ts) == Ok(ast)
    ensures Begins(ts, ast)
  {
    hide TypedNames, TypedList, Head, Tail, CreateAst, CreateBody;
    var table, inner := CreateTokens(ts, ast);
    var columns, more := CreateBodyTokens(table, inner, ast);
    var types, comma := TypedNamesWereRead(inner);
    Four(Create, Table, Identifier(table), OpenParen, inner);
    Around([Create, Table, Identifier(table), OpenParen], TypedList(columns, types, comma), [CloseParen], more);
    assert IsForm(ts, ast, Choice([], types, comma), more);
  }

  lemma DeleteWasWritten(ts: seq<Token>, ast: Ast)
    requires Head(ts) == Delete && DeleteAst(ts) == Ok(ast)
    ensures Begins(ts, ast)
  {
    var from := Expect(Tail(ts), From);
    HeadAndTail(ts);
    Expects(Tail(ts), From);
    HeadAndTail(from.value);
    hide Head, Tail, Expect;
    var table, more := Head(from.value).name, Tail(from.value);
    assert ts == [Delete, From, Identifier(table)] + more;
    assert IsForm(ts, ast, Choice([], [], false), more);
  }

  /** The parser accepts a list of tokens, as a statement, exactly when the list begins with a way to write that
      statement: with any literals for its values, any types or none behind its columns, and a comma behind a list or
      none. What follows is not looked at. */
  lemma ParsesIff(ts: seq<Token>, ast: Ast)
    ensures AstOf(ts) == Ok(ast) <==> Begins(ts, ast)
  {
    hide SelectAst, InsertAst, CreateAst, DeleteAst, Written, Fits;
    if AstOf(ts) == Ok(ast) {
      match Head(ts) {
        case Select => SelectWasWritten(ts, ast);
        case Insert => InsertWasWritten(ts, ast);
        case Create => CreateWasWritten(ts, ast);
        case Delete => DeleteWasWritten(ts, ast);
      }
    }
    if Begins(ts, ast) {
      var c, more :| IsForm(ts, ast, c, more);
      WrittenReadsBack(ast, c, more);
    }
  }

  /** It reports an error exactly when the list begins with no statement. */
  lemma RejectsIff(ts: seq<Token>)
    ensures AstOf(ts).Err? <==> forall ast :: !Begins(ts, ast)
  {
    hide AstOf, Begins;
    forall ast
      ensures AstOf(ts) == Ok(ast) <==> Begins(ts, ast)
    {
      ParsesIff(ts, ast);
    }
    if AstOf(ts).Ok? {
      assert Begins(ts, AstOf(ts).value);
    }
  }

  // ----- Words and numbers -----

  /** Names are words of letters, digits and underscores that start with a letter and are none of nine keywords, in any
      casing. */
  lemma IdentifierMeans(s: string)
    ensures IsIdentifier(s) <==>
            && s != [] && ('a' <= s[0] <= 'z' || 'A' <= s[0] <= 'Z')
            && (forall i :: 0 <= i < |s| ==>
                  'a' <= s[i] <= 'z' || 'A' <= s[i] <= 'Z' || '0' <= s[i] <= '9' || s[i] == '_')
            && Uppercase(s) !in {"SELECT", "FROM", "WHERE", "INSERT", "INTO", "VALUES", "CREATE", "TABLE", "DELETE"}
  {
  }

  /** What a word and what a single character is read as. */
  lemma WordsMean(s: string, c: char)
    ensures WordToken(s) ==
            var u := Uppercase(s);
            if u == "SELECT" then Select else if u == "FROM" then From else if u == "WHERE" then Where
            else if u == "INSERT" then Insert else if u == "INTO" then Into else if u == "VALUES" then Values
            else if u == "CREATE" then Create else if u == "TABLE" then Table else if u == "DELETE" then Delete
            else Identifier(s)
    ensures Punctuation(c) ==
            if c == '(' then Some(OpenParen) else if c == ')' then Some(CloseParen) else if c == ',' then Some(Comma)
            else if c == '=' then Some(Equals) else if c == ';' then Some(Semicolon) else None
  {
  }

  /** The number that a string of digits stands for. */
  function Worth(s: string): nat
    requires forall i :: 0 <= i < |s| ==> '0' <= s[i] <= '9'
  {
    if s == [] then 0 else 10 * Worth(s[..|s| - 1]) + (s[|s| - 1] as int - 48)
  }

  lemma WrapsOn(n: int, w: int, d: int)
    requires (n - w) % U32 == 0
    ensures (Wrap(n * 10 + d) - (10 * w + d)) % U32 == 0
  {
    var q := (n - w) / U32;
    assert n == w + q * U32;
    assert n * 10 + d == 10 * w + d + (10 * q) * U32;
    WrapIsCongruent(n * 10 + d);
    var p := (Wrap(n * 10 + d) - (n * 10 + d)) / U32;
    assert Wrap(n * 10 + d) - (10 * w + d) == (p + 10 * q) * U32;
  }

  lemma WrapIsCongruent(n: int)
    ensures (Wrap(n) - n) % U32 == 0
  {
    var m := n + 0x8000_0000;
    assert m == m / U32 * U32 + m % U32;
    assert Wrap(n) - n == -(m / U32) * U32;
  }

  /** A number is read as what it stands for, up to a multiple of 2^32, and so exactly that below 2^31. */
  lemma {:induction false} NumberMeans(s: string)
    requires Digits(s)
    ensures (NumberOf(s) - Worth(s)) % 0x1_0000_0000 == 0
    ensures Worth(s) < 0x8000_0000 ==> NumberOf(s) == Worth(s)
  {
    if s != [] {
      var front, d := s[..|s| - 1], DigitOf(s[|s| - 1]);
      NumberMeans(front);
      assert Worth(s) == 10 * Worth(front) + d && NumberOf(s) == Wrap(NumberOf(front) * 10 + d);
      hide Worth, NumberOf, Wrap;
      WrapsOn(NumberOf(front), Worth(front), d);
    }
  }

  /** An integer is written in decimal, without leading zeros. */
  lemma {:induction false} DecimalMeans(n: nat)
    ensures var s := DecimalDigits(n);
            Digits(s) && s != [] && Worth(s) == n && (n > 0 ==> s[0] != '0') && (n == 0 ==> |s| == 1)
  {
    var s, d := DecimalDigits(n), ('0' as int + n % 10) as char;
    if n < 10 {
      assert s == [d] && s[..0] == [];
    } else {
      DecimalMeans(n / 10);
      assert s[..|s| - 1] == DecimalDigits(n / 10);
    }
  }

  lemma {:induction false} WorthIsPositive(s: string)
    requires Digits(s) && s != [] && s[0] != '0'
    ensures Worth(s) > 0
  {
    if |s| > 1 {
      WorthIsPositive(s[..|s| - 1]);
    }
  }

  lemma DigitsApart(front: nat, d: nat)
    requires d < 10
    ensures (10 * front + d) / 10 == front && (10 * front + d) % 10 == d
    ensures 10 * front + d >= 10 <==> front > 0
  {
  }

  lemma DecimalGrows(front: nat, last: char)
    requires '0' <= last <= '9'
    ensures DecimalDigits(10 * front + (last as int - 48)) == (if front == 0 then [] else DecimalDigits(front)) + [last]
  {
    DigitsApart(front, last as int - 48);
  }

  /** A decimal number without leading zeros is determined by what it stands for. */
  lemma {:induction false} WorthIsDecimal(s: string)
    requires Digits(s) && s != [] && (s[0] != '0' || |s| == 1)
    ensures DecimalDigits(Worth(s)) == s
  {
    var front, last := s[..|s| - 1], s[|s| - 1];
    assert Worth(s) == 10 * Worth(front) + (last as int - 48);
    assert s == front + [last] && Digits(front) && (front == [] ==> Worth(front) == 0);
    DecimalGrows(Worth(front), last);
    hide Worth, DecimalDigits;
    if |s| > 1 {
      WorthIsPositive(front);
      WorthIsDecimal(front);
    }
  }

  /** So an integer below 2^31 given to an insert arrives as it was typed. */
  lemma NumberArrives(s: string)
    requires Digits(s) && s != [] && (s[0] != '0' || |s| == 1) && Worth(s) < 0x8000_0000
    ensures ValueOf(Number(NumberOf(s))) == s
  {
    NumberMeans(s);
    WorthIsDecimal(s);
  }
}
