/** The recursive-descent parser (src/db/parser.c): a cursor over the token array fills
    one statement. */
module Parser {
  import opened Text
  import opened Statements
  import opened Tokenizer

  // ---- tokens ----------------------------------------------------------------------

  predicate IsLiteral(t: Token) {
    t.kind == IntLiteral || t.kind == StrLiteral
  }

  const LPAREN := Token(LParen, "(")
  const RPAREN := Token(RParen, ")")
  const COMMA := Token(Comma, ",")
  const SEMICOLON := Token(Semicolon, ";")
  const STAR := Token(Identifier, "*")

  function Word(keyword: string): (token: Token) {
    Token(Keyword, keyword)
  }

  /** The next token is exactly `t`. */
  predicate Starts(ts: seq<Token>, t: Token) {
    ts != [] && ts[0] == t
  }

  /** What one entry of a list takes: a column name, or a literal value. */
  predicate IsItem(t: Token, literal: bool) {
    if literal then IsLiteral(t) && FitsValue(t.value) else t.kind == Identifier && FitsName(t.value)
  }

  // ---- the grammar on token lists ------------------------------------------------------

  datatype Parsed<T> = Parsed(value: T, rest: seq<Token>)

  /** A comma-separated list with room for so many more entries. It ends where no comma
      follows, or where the tokens end. */
  function Items(ts: seq<Token>, room: nat, literal: bool): (list: Option<Parsed<seq<string>>>)
    ensures list.Some? ==> |list.value.value| <= room
    decreases |ts|
  {
    if ts == [] then Some(Parsed([], []))
    else if room == 0 || !IsItem(ts[0], literal) then None
    else if Starts(ts[1..], COMMA) then
      var more := Items(ts[2..], room - 1, literal);
      if more.None? then None else Some(Parsed([ts[0].value] + more.value.value, more.value.rest))
    else Some(Parsed([ts[0].value], ts[1..]))
  }

  /** The optional final semicolon, and nothing after it. */
  predicate Finished(ts: seq<Token>) {
    ts == [] || ts == [SEMICOLON]
  }

  predicate IsName(ts: seq<Token>) {
    ts != [] && IsItem(ts[0], false)
  }

  function WhereFrom(ts: seq<Token>): (found: Option<Parsed<WhereClause>>) {
    if |ts| >= 3 && IsItem(ts[0], false) && ts[1].kind == Operator && |ts[1].value| < MAX_OPERATOR_LEN
      && IsItem(ts[2], true) then
      Some(Parsed(WhereClause(ts[0].value, ts[1].value, ts[2].value), ts[3..]))
    else None
  }

  /** FROM is behind us: the table name, an optional condition, and the end. */
  function Tail(ts: seq<Token>): (found: Option<(string, Option<WhereClause>)>) {
    if !IsName(ts) then None
    else if Starts(ts[1..], Word("WHERE")) then
      var where := WhereFrom(ts[2..]);
      if where.None? || !Finished(where.value.rest) then None else Some((ts[0].value, Some(where.value.value)))
    else if Finished(ts[1..]) then Some((ts[0].value, None))
    else None
  }

  function InsertValues(table: string, columns: seq<string>, ts: seq<Token>): (found: Option<Statement>) {
    if !(|ts| >= 3 && ts[0] == RPAREN && ts[1] == Word("VALUES") && ts[2] == LPAREN) then None
    else
      var values := Items(ts[3..], MAX_COLUMNS, true);
      if values.None? || !Starts(values.value.rest, RPAREN) || |values.value.value| != |columns|
         || !Finished(values.value.rest[1..]) then None
      else Some(Insert(InsertStatement(table, columns, values.value.value)))
  }

  function InsertFrom(ts: seq<Token>): (found: Option<Statement>) {
    if !(|ts| >= 4 && ts[0] == Word("INSERT") && ts[1] == Word("INTO") && IsItem(ts[2], false) && ts[3] == LPAREN)
      then None
    else
      var columns := Items(ts[4..], MAX_COLUMNS, false);
      if columns.None? then None else InsertValues(ts[2].value, columns.value.value, columns.value.rest)
  }

  function SelectColumns(ts: seq<Token>): (found: Option<Parsed<seq<string>>>) {
    if Starts(ts, STAR) then Some(Parsed([], ts[1..])) else Items(ts, MAX_COLUMNS, false)
  }

  function SelectFrom(ts: seq<Token>): (found: Option<Statement>) {
    if !Starts(ts, Word("SELECT")) then None
    else
      var columns := SelectColumns(ts[1..]);
      if columns.None? || !Starts(columns.value.rest, Word("FROM")) then None
      else
        var tail := Tail(columns.value.rest[1..]);
        if tail.None? then None else Some(Select(SelectStatement(tail.value.0, columns.value.value, tail.value.1)))
  }

  function DeleteFrom(ts: seq<Token>): (found: Option<Statement>) {
    if !(|ts| >= 2 && ts[0] == Word("DELETE") && ts[1] == Word("FROM")) then None
    else
      var tail := Tail(ts[2..]);
      if tail.None? then None else Some(Delete(DeleteStatement(tail.value.0, tail.value.1)))
  }

  /** The statement a token list stands for. */
  function ParseTokens(ts: seq<Token>): (found: Option<Statement>) {
    if Starts(ts, Word("INSERT")) then InsertFrom(ts)
    else if Starts(ts, Word("SELECT")) then SelectFrom(ts)
    else if Starts(ts, Word("DELETE")) then DeleteFrom(ts)
    else None
  }

  // ---- the cursor ---------------------------------------------------------------------------

  /** `parser_is_token` with a value. */
  predicate IsToken(tokens: seq<Token>, index: nat, t: Token) {
    index < |tokens| && tokens[index] == t
  }

  /** `parser_expect_keyword`. */
  method ExpectKeyword(tokens: seq<Token>, index: nat, keyword: string) returns (ok: bool, next: nat)
    requires index <= |tokens|
    ensures ok == Starts(tokens[index..], Word(keyword)) && index <= next <= |tokens|
    ensures ok ==> next == index + 1
  {
    if !IsToken(tokens, index, Word(keyword)) {
      return false, index;
    }
    return true, index + 1;
  }

  /** `parser_expect_identifier` into a buffer of MAX_IDENTIFIER_LEN bytes. */
  method ExpectIdentifier(tokens: seq<Token>, index: nat) returns (name: Option<string>, next: nat)
    requires index <= |tokens|
    ensures name == (if IsName(tokens[index..]) then Some(tokens[index].value) else None) && index <= next <= |tokens|
    ensures name.Some? ==> next == index + 1
  {
    if index >= |tokens| || tokens[index].kind != Identifier || |tokens[index].value| >= MAX_IDENTIFIER_LEN {
      return None, index;
    }
    return Some(tokens[index].value), index + 1;
  }

  /** `parser_expect_literal` into a buffer of MAX_VALUE_LEN bytes. */
  method ExpectLiteral(tokens: seq<Token>, index: nat) returns (value: Option<string>, next: nat)
    requires index <= |tokens|
    ensures value == (if index < |tokens| && IsItem(tokens[index], true) then Some(tokens[index].value) else None)
    ensures index <= next <= |tokens| && (value.Some? ==> next == index + 1)
  {
    if index >= |tokens| {
      return None, index;
    }
    var kind := tokens[index].kind;
    if kind != IntLiteral && kind != StrLiteral {
      return None, index;
    }
    if |tokens[index].value| >= MAX_VALUE_LEN {
      return None, index;
    }
    return Some(tokens[index].value), index + 1;
  }

  /** `parser_consume_optional_semicolon`. */
  method ConsumeOptionalSemicolon(tokens: seq<Token>, index: nat) returns (ok: bool)
    requires index <= |tokens|
    ensures ok == Finished(tokens[index..])
  {
    var next := index;
    if IsToken(tokens, next, SEMICOLON) {
      next := next + 1;
    }
    ok := next == |tokens|;
    assert |tokens[index..]| == |tokens| - index;
    assert index < |tokens| ==> tokens[index..][0] == tokens[index];
    assert ok && next == index + 1 ==> tokens[index..] == [SEMICOLON];
  }

  /** What a partly read list comes to. */
  function Continued(read: seq<string>, more: Option<Parsed<seq<string>>>): (found: Option<Parsed<seq<string>>>) {
    if more.None? then None else Some(Parsed(read + more.value.value, more.value.rest))
  }

  lemma ContinuedStep(tokens: seq<Token>, index: nat, read: seq<string>, literal: bool)
    requires index < |tokens| && |read| < MAX_COLUMNS && IsItem(tokens[index], literal)
    ensures var more := Items(tokens[index..], MAX_COLUMNS - |read|, literal);
            var read' := read + [tokens[index].value];
            if IsToken(tokens, index + 1, COMMA) then
              index + 2 <= |tokens|
                && Continued(read, more) == Continued(read', Items(tokens[index + 2..], MAX_COLUMNS - |read'|, literal))
            else index + 1 <= |tokens| && Continued(read, more) == Some(Parsed(read', tokens[index + 1..]))
  {
    var ts := tokens[index..];
    assert ts[0] == tokens[index] && ts[1..] == tokens[index + 1..];
    if IsToken(tokens, index + 1, COMMA) {
      assert ts[1..][0] == tokens[index + 1] && ts[2..] == tokens[index + 2..];
      var more := Items(tokens[index + 2..], MAX_COLUMNS - |read| - 1, literal);
      if more.Some? {
        assert read + ([tokens[index].value] + more.value.value) == read + [tokens[index].value] + more.value.value;
      }
    } else {
      assert index + 1 < |tokens| ==> ts[1..][0] == tokens[index + 1];
    }
  }

  /** The column loop of `parser_parse_insert` and `parser_parse_select_columns`. */
  method ParseNames(tokens: seq<Token>, start: nat) returns (names: Option<seq<string>>, index: nat)
    requires start <= |tokens|
    ensures index <= |tokens|
    ensures Items(tokens[start..], MAX_COLUMNS, false)
            == if names.None? then None else Some(Parsed(names.value, tokens[index..]))
  {
    hide Items, IsItem;
    ghost var all := Items(tokens[start..], MAX_COLUMNS, false);
    var read: seq<string> := [];
    index := start;
    assert all.Some? ==> [] + all.value.value == all.value.value;
    while index < |tokens|
      invariant start <= index <= |tokens| && |read| <= MAX_COLUMNS
      invariant Continued(read, Items(tokens[index..], MAX_COLUMNS - |read|, false)) == all
    {
      ItemsFail(tokens, index, MAX_COLUMNS - |read|, false);
      if |read| >= MAX_COLUMNS {
        return None, index;
      }
      var name, next := ExpectIdentifier(tokens, index);
      if name.None? {
        return None, index;
      }
      ContinuedStep(tokens, index, read, false);
      read := read + [name.value];
      index := next;
      if IsToken(tokens, index, COMMA) {
        index := index + 1;
        continue;
      }
      return Some(read), index;
    }
    NoItems(tokens, index, MAX_COLUMNS - |read|, false);
    assert read + [] == read;
    return Some(read), index;
  }

  /** The value loop of `parser_parse_insert`. */
  method ParseValues(tokens: seq<Token>, start: nat) returns (values: Option<seq<string>>, index: nat)
    requires start <= |tokens|
    ensures index <= |tokens|
    ensures Items(tokens[start..], MAX_COLUMNS, true)
            == if values.None? then None else Some(Parsed(values.value, tokens[index..]))
  {
    hide Items, IsItem;
    ghost var all := Items(tokens[start..], MAX_COLUMNS, true);
    var read: seq<string> := [];
    index := start;
    assert all.Some? ==> [] + all.value.value == all.value.value;
    while index < |tokens|
      invariant start <= index <= |tokens| && |read| <= MAX_COLUMNS
      invariant Continued(read, Items(tokens[index..], MAX_COLUMNS - |read|, true)) == all
    {
      ItemsFail(tokens, index, MAX_COLUMNS - |read|, true);
      if |read| >= MAX_COLUMNS {
        return None, index;
      }
      var value, next := ExpectLiteral(tokens, index);
      if value.None? {
        return None, index;
      }
      ContinuedStep(tokens, index, read, true);
      read := read + [value.value];
      index := next;
      if IsToken(tokens, index, COMMA) {
        index := index + 1;
        continue;
      }
      return Some(read), index;
    }
    NoItems(tokens, index, MAX_COLUMNS - |read|, true);
    assert read + [] == read;
    return Some(read), index;
  }

  lemma ItemsFail(tokens: seq<Token>, index: nat, room: nat, literal: bool)
    requires index < |tokens|
    ensures room == 0 || !IsItem(tokens[index], literal) ==> Items(tokens[index..], room, literal).None?
    ensures !literal ==> (IsName(tokens[index..]) <==> IsItem(tokens[index], false))
  {
  }

  lemma NoItems(tokens: seq<Token>, index: nat, room: nat, literal: bool)
    requires index == |tokens|
    ensures Items(tokens[index..], room, literal) == Some(Parsed([], [])) && tokens[index..] == []
  {
  }

  /** The part of `parser_parse_insert` after the column list. */
  method ParseInsertValues(tokens: seq<Token>, start: nat, table: string, columns: seq<string>)
    returns (stmt: Option<Statement>)
    requires start <= |tokens|
    ensures stmt == InsertValues(table, columns, tokens[start..])
  {
    hide Items, Finished;
    ghost var ts := tokens[start..];
    assert forall k :: 0 <= k < |ts| ==> ts[k] == tokens[start + k];
    var index := start;
    if !IsToken(tokens, index, RPAREN) {
      return None;
    }
    index := index + 1;
    var ok: bool;
    ok, index := ExpectKeyword(tokens, index, "VALUES");
    if !ok {
      return None;
    }
    if !IsToken(tokens, index, LPAREN) {
      return None;
    }
    index := index + 1;
    assert ts[3..] == tokens[index..];
    var values;
    values, index := ParseValues(tokens, index);
    if values.None? || !IsToken(tokens, index, RPAREN) {
      return None;
    }
    assert tokens[index..][1..] == tokens[index + 1..];
    index := index + 1;
    if |columns| != |values.value| {
      return None;
    }
    var finished := ConsumeOptionalSemicolon(tokens, index);
    return if finished then Some(Insert(InsertStatement(table, columns, values.value))) else None;
  }

  /** `parser_parse_insert`. */
  method ParseInsert(tokens: seq<Token>) returns (stmt: Option<Statement>)
    ensures stmt == InsertFrom(tokens)
  {
    hide Items, InsertValues;
    assert tokens[0..] == tokens;
    var index := 0;
    var ok: bool;
    ok, index := ExpectKeyword(tokens, index, "INSERT");
    if !ok {
      return None;
    }
    ok, index := ExpectKeyword(tokens, index, "INTO");
    if !ok {
      return None;
    }
    var table;
    table, index := ExpectIdentifier(tokens, index);
    if table.None? {
      return None;
    }
    if !IsToken(tokens, index, LPAREN) {
      return None;
    }
    index := index + 1;
    var columns;
    columns, index := ParseNames(tokens, index);
    if columns.None? {
      return None;
    }
    stmt := ParseInsertValues(tokens, index, table.value, columns.value);
  }

  /** `parser_parse_select_columns`. */
  method ParseSelectColumns(tokens: seq<Token>, start: nat) returns (columns: Option<seq<string>>, index: nat)
    requires start <= |tokens|
    ensures index <= |tokens|
    ensures SelectColumns(tokens[start..]) == if columns.None? then None
      else Some(Parsed(columns.value, tokens[index..]))
  {
    hide Items;
    if IsToken(tokens, start, STAR) {
      assert tokens[start..][1..] == tokens[start + 1..];
      return Some([]), start + 1;
    }
    columns, index := ParseNames(tokens, start);
  }

  /** `parser_parse_where`. */
  method ParseWhere(tokens: seq<Token>, start: nat) returns (where: Option<WhereClause>, index: nat)
    requires start <= |tokens|
    ensures index <= |tokens|
    ensures WhereFrom(tokens[start..]) == if where.None? then None else Some(Parsed(where.value, tokens[index..]))
  {
    ghost var ts := tokens[start..];
    assert forall k :: 0 <= k < |ts| ==> ts[k] == tokens[start + k];
    var column;
    column, index := ExpectIdentifier(tokens, start);
    if column.None? {
      return None, index;
    }
    if index >= |tokens| || tokens[index].kind != Operator {
      return None, index;
    }
    var op := tokens[index].value;
    if |op| >= MAX_OPERATOR_LEN {
      return None, index;
    }
    index := index + 1;
    var value;
    value, index := ExpectLiteral(tokens, index);
    if value.None? {
      return None, index;
    }
    assert ts[3..] == tokens[index..];
    return Some(WhereClause(column.value, op, value.value)), index;
  }

  /** The shared end of `parser_parse_select` and `parser_parse_delete`. */
  method ParseTail(tokens: seq<Token>, start: nat) returns (tail: Option<(string, Option<WhereClause>)>)
    requires start <= |tokens|
    ensures tail == Tail(tokens[start..])
  {
    hide WhereFrom, Finished;
    ghost var ts := tokens[start..];
    var index := start;
    var table;
    table, index := ExpectIdentifier(tokens, index);
    if table.None? {
      return None;
    }
    assert ts[1..] == tokens[index..];
    var where: Option<WhereClause> := None;
    if IsToken(tokens, index, Word("WHERE")) {
      index := index + 1;
      assert ts[2..] == tokens[index..];
      where, index := ParseWhere(tokens, index);
      if where.None? {
        return None;
      }
    }
    var finished := ConsumeOptionalSemicolon(tokens, index);
    return if finished then Some((table.value, where)) else None;
  }

  /** `parser_parse_select`. */
  method ParseSelect(tokens: seq<Token>) returns (stmt: Option<Statement>)
    ensures stmt == SelectFrom(tokens)
  {
    hide SelectColumns, Tail;
    assert tokens[0..] == tokens;
    var ok, index := ExpectKeyword(tokens, 0, "SELECT");
    if !ok {
      return None;
    }
    var columns;
    columns, index := ParseSelectColumns(tokens, index);
    if columns.None? {
      return None;
    }
    ok, index := ExpectKeyword(tokens, index, "FROM");
    if !ok {
      return None;
    }
    assert tokens[index - 1..][1..] == tokens[index..];
    var tail := ParseTail(tokens, index);
    return if tail.None? then None else Some(Select(SelectStatement(tail.value.0, columns.value, tail.value.1)));
  }

  /** `parser_parse_delete`. */
  method ParseDelete(tokens: seq<Token>) returns (stmt: Option<Statement>)
    ensures stmt == DeleteFrom(tokens)
  {
    hide Tail;
    assert tokens[0..] == tokens;
    var ok, index := ExpectKeyword(tokens, 0, "DELETE");
    if !ok {
      return None;
    }
    ok, index := ExpectKeyword(tokens, index, "FROM");
    if !ok {
      return None;
    }
    var tail := ParseTail(tokens, index);
    return if tail.None? then None else Some(Delete(DeleteStatement(tail.value.0, tail.value.1)));
  }

  /** `parser_parse`. */
  method Parse(tokens: seq<Token>) returns (stmt: Option<Statement>)
    ensures stmt == ParseTokens(tokens)
  {
    hide InsertFrom, SelectFrom, DeleteFrom;
    if IsToken(tokens, 0, Word("INSERT")) {
      stmt := ParseInsert(tokens);
    } else if IsToken(tokens, 0, Word("SELECT")) {
      stmt := ParseSelect(tokens);
    } else if IsToken(tokens, 0, Word("DELETE")) {
      stmt := ParseDelete(tokens);
    } else {
      stmt := None;
    }
  }
}
