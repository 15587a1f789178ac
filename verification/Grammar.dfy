/** The parser is exact: it accepts a token list for a statement if and only if the list
    is the token form of that statement, up to an optional final semicolon and the kind
    of its literals. Nothing is dropped and nothing is invented. */
module Grammar {
  import opened Text
  import opened Statements
  import opened Tokenizer
  import opened Parser

  // ---- token forms ------------------------------------------------------------------

  function ItemToken(value: string, literal: bool): (token: Token) {
    if literal then Token(StrLiteral, value) else Token(Identifier, value)
  }

  /** A comma-separated list followed by `end`. */
  function ListForm(xs: seq<string>, literal: bool, end: seq<Token>): (form: seq<Token>)
    requires xs != []
    ensures form != []
  {
    [ItemToken(xs[0], literal)] + (if |xs| == 1 then end else [COMMA] + ListForm(xs[1..], literal, end))
  }

  function WhereForm(where: WhereClause, end: seq<Token>): (form: seq<Token>) {
    [ItemToken(where.column, false), Token(Operator, where.op), ItemToken(where.value, true)] + end
  }

  function TailForm(table: string, where: Option<WhereClause>, end: seq<Token>): (form: seq<Token>) {
    [ItemToken(table, false)] + (if where.None? then end else [Word("WHERE")] + WhereForm(where.value, end))
  }

  function ValuesForm(values: seq<string>, end: seq<Token>): (form: seq<Token>)
    requires values != []
  {
    [RPAREN, Word("VALUES"), LPAREN] + ListForm(values, true, [RPAREN] + end)
  }

  function ColumnsForm(columns: seq<string>, end: seq<Token>): (form: seq<Token>) {
    if columns == [] then [STAR] + end else ListForm(columns, false, end)
  }

  predicate FitsItems(xs: seq<string>, literal: bool) {
    |xs| <= MAX_COLUMNS && forall i :: 0 <= i < |xs| ==> IsItem(ItemToken(xs[i], literal), literal)
  }

  /** The statements that have a token form: a list is never empty except for `*`, and
      a leading `*` in a column list would mean all columns. */
  predicate Expressible(stmt: Statement) {
    match stmt
    case Insert(s) =>
      && FitsName(s.table) && s.columns != [] && FitsItems(s.columns, false)
      && |s.values| == |s.columns| && FitsItems(s.values, true)
    case Select(s) =>
      FitsName(s.table) && FitsItems(s.columns, false) && (s.columns != [] ==> s.columns[0] != "*")
        && FitsWhere(s.where)
    case Delete(s) => FitsName(s.table) && FitsWhere(s.where)
  }

  /** The tokens of a statement, followed by `end`. */
  function Form(stmt: Statement, end: seq<Token>): (form: seq<Token>)
    requires Expressible(stmt)
  {
    match stmt
    case Insert(s) =>
      [Word("INSERT"), Word("INTO"), ItemToken(s.table, false), LPAREN]
      + ListForm(s.columns, false, ValuesForm(s.values, end))
    case Select(s) =>
      [Word("SELECT")] + ColumnsForm(s.columns, [Word("FROM")] + TailForm(s.table, s.where, end))
    case Delete(s) => [Word("DELETE"), Word("FROM")] + TailForm(s.table, s.where, end)
  }

  /** A literal counts by its value, whichever way it was written. */
  function AsString(t: Token): (token: Token) {
    if t.kind == IntLiteral then Token(StrLiteral, t.value) else t
  }

  function Norm(ts: seq<Token>): (ns: seq<Token>)
    ensures |ns| == |ts|
  {
    seq(|ts|, i requires 0 <= i < |ts| => AsString(ts[i]))
  }

  /** The token list is the statement, with or without a final semicolon. */
  predicate IsFormOf(ts: seq<Token>, stmt: Statement) {
    Expressible(stmt) && (Norm(ts) == Form(stmt, []) || Norm(ts) == Form(stmt, [SEMICOLON]))
  }

  // ---- pieces --------------------------------------------------------------------------

  lemma NormSplit(ts: seq<Token>, k: nat)
    requires k <= |ts|
    ensures Norm(ts) == Norm(ts[..k]) + Norm(ts[k..])
    ensures Norm(ts[k..]) == Norm(ts)[k..]
  {
  }

  lemma FinishedForm(ts: seq<Token>)
    ensures Finished(ts) <==> Norm(ts) == [] || Norm(ts) == [SEMICOLON]
  {
    if Norm(ts) == [SEMICOLON] {
      assert AsString(ts[0]) == Norm(ts)[0];
      assert ts == [ts[0]];
    }
  }

  /** A list that is followed by something has exactly its entries and their commas. */
  lemma {:induction false} ItemsSound(ts: seq<Token>, room: nat, literal: bool)
    requires room <= MAX_COLUMNS && Items(ts, room, literal).Some? && Items(ts, room, literal).value.rest != []
    ensures var list := Items(ts, room, literal).value;
            && list.value != [] && FitsItems(list.value, literal)
            && Norm(ts) == ListForm(list.value, literal, Norm(list.rest))
            && (Starts(ts, STAR) && !literal ==> list.value[0] == "*")
    decreases |ts|
  {
    var list := Items(ts, room, literal).value;
    NormSplit(ts, 1);
    assert Norm(ts[..1]) == [ItemToken(ts[0].value, literal)];
    if Starts(ts[1..], COMMA) {
      ItemsSound(ts[2..], room - 1, literal);
      NormSplit(ts[1..], 1);
      assert ts[1..][1..] == ts[2..] && Norm(ts[1..][..1]) == [COMMA];
      assert list.value[1..] == Items(ts[2..], room - 1, literal).value.value;
    }
  }

  lemma LastItem(ts: seq<Token>, room: nat, literal: bool)
    requires ts != [] && room > 0 && IsItem(ts[0], literal) && !Starts(ts[1..], COMMA)
    ensures Items(ts, room, literal) == Some(Parsed([ts[0].value], ts[1..]))
  {
  }

  lemma MoreItems(ts: seq<Token>, room: nat, literal: bool)
    requires |ts| >= 2 && room > 0 && IsItem(ts[0], literal) && ts[1] == COMMA
    requires Items(ts[2..], room - 1, literal).Some?
    ensures var more := Items(ts[2..], room - 1, literal).value;
            Items(ts, room, literal) == Some(Parsed([ts[0].value] + more.value, more.rest))
  {
  }

  lemma {:induction false} ItemsComplete(ts: seq<Token>, room: nat, xs: seq<string>, literal: bool, end: seq<Token>)
    requires xs != [] && |xs| <= room && FitsItems(xs, literal)
    requires Norm(ts) == ListForm(xs, literal, end) && end != [] && end[0] != COMMA
    ensures |ts| >= |end| && Norm(ts[|ts| - |end|..]) == end
    ensures Items(ts, room, literal) == Some(Parsed(xs, ts[|ts| - |end|..]))
    decreases |xs|
  {
    hide Items;
    assert AsString(ts[0]) == Norm(ts)[0] == ItemToken(xs[0], literal);
    if |xs| == 1 {
      NormSplit(ts, 1);
      assert Norm(ts[1..]) == end;
      assert AsString(ts[1..][0]) == end[0];
      LastItem(ts, room, literal);
      assert xs == [xs[0]];
    } else {
      var more := ListForm(xs[1..], literal, end);
      assert Norm(ts) == [ItemToken(xs[0], literal), COMMA] + more;
      hide ListForm;
      assert AsString(ts[1]) == Norm(ts)[1] == COMMA;
      NormSplit(ts, 2);
      assert Norm(ts[2..]) == more;
      ItemsComplete(ts[2..], room - 1, xs[1..], literal, end);
      MoreItems(ts, room, literal);
      assert xs == [xs[0]] + xs[1..];
    }
  }

  // ---- soundness -----------------------------------------------------------------------------

  lemma WhereSound(ts: seq<Token>)
    requires WhereFrom(ts).Some?
    ensures var where := WhereFrom(ts).value;
            FitsWhere(Some(where.value)) && Norm(ts) == WhereForm(where.value, Norm(where.rest))
  {
    NormSplit(ts, 3);
  }

  lemma TailSound(ts: seq<Token>) returns (end: seq<Token>)
    requires Tail(ts).Some?
    ensures var (table, where) := Tail(ts).value;
            && FitsName(table) && FitsWhere(where)
            && (end == [] || end == [SEMICOLON]) && Norm(ts) == TailForm(table, where, end)
  {
    NormSplit(ts, 1);
    assert Norm(ts[..1]) == [ItemToken(ts[0].value, false)];
    if Starts(ts[1..], Word("WHERE")) {
      WhereSound(ts[2..]);
      NormSplit(ts[1..], 1);
      assert ts[1..][1..] == ts[2..] && Norm(ts[1..][..1]) == [Word("WHERE")];
      end := Norm(WhereFrom(ts[2..]).value.rest);
      FinishedForm(WhereFrom(ts[2..]).value.rest);
    } else {
      end := Norm(ts[1..]);
      FinishedForm(ts[1..]);
    }
  }

  lemma ValuesSound(table: string, columns: seq<string>, ts: seq<Token>) returns (end: seq<Token>)
    requires InsertValues(table, columns, ts).Some? && columns != []
    ensures var stmt := InsertValues(table, columns, ts).value;
            && stmt.Insert? && stmt.insert.table == table && stmt.insert.columns == columns
            && |stmt.insert.values| == |columns| && FitsItems(stmt.insert.values, true)
            && (end == [] || end == [SEMICOLON]) && Norm(ts) == ValuesForm(stmt.insert.values, end)
  {
    var values := Items(ts[3..], MAX_COLUMNS, true).value;
    ItemsSound(ts[3..], MAX_COLUMNS, true);
    NormSplit(ts, 3);
    assert Norm(ts[..3]) == [RPAREN, Word("VALUES"), LPAREN];
    NormSplit(values.rest, 1);
    assert Norm(values.rest[..1]) == [RPAREN];
    end := Norm(values.rest[1..]);
    FinishedForm(values.rest[1..]);
  }

  lemma InsertSound(ts: seq<Token>)
    requires InsertFrom(ts).Some?
    ensures IsFormOf(ts, InsertFrom(ts).value)
  {
    var columns := Items(ts[4..], MAX_COLUMNS, false).value;
    ItemsSound(ts[4..], MAX_COLUMNS, false);
    var end := ValuesSound(ts[2].value, columns.value, columns.rest);
    NormSplit(ts, 4);
    assert Norm(ts[..4]) == [Word("INSERT"), Word("INTO"), ItemToken(ts[2].value, false), LPAREN];
  }

  lemma SelectSound(ts: seq<Token>)
    requires Parser.SelectFrom(ts).Some?
    ensures IsFormOf(ts, Parser.SelectFrom(ts).value)
  {
    var columns := SelectColumns(ts[1..]).value;
    var end := TailSound(columns.rest[1..]);
    NormSplit(columns.rest, 1);
    assert Norm(columns.rest[..1]) == [Word("FROM")];
    NormSplit(ts, 1);
    assert Norm(ts[..1]) == [Word("SELECT")];
    if Starts(ts[1..], STAR) {
      NormSplit(ts[1..], 1);
      assert Norm(ts[1..][..1]) == [STAR];
    } else {
      ItemsSound(ts[1..], MAX_COLUMNS, false);
      ListStarts(ts[1..], columns.value, Norm(columns.rest));
    }
  }

  /** A column list whose first token is not `*` has no leading `*`. */
  lemma ListStarts(ts: seq<Token>, xs: seq<string>, end: seq<Token>)
    requires xs != [] && Norm(ts) == ListForm(xs, false, end)
    ensures ts != [] && (Starts(ts, STAR) <==> xs[0] == "*")
  {
    assert AsString(ts[0]) == Norm(ts)[0] == ItemToken(xs[0], false);
  }

  lemma DeleteSound(ts: seq<Token>)
    requires DeleteFrom(ts).Some?
    ensures IsFormOf(ts, DeleteFrom(ts).value)
  {
    var end := TailSound(ts[2..]);
    NormSplit(ts, 2);
    assert Norm(ts[..2]) == [Word("DELETE"), Word("FROM")];
  }

  // ---- completeness -----------------------------------------------------------------------------

  lemma FixedToken(ts: seq<Token>, k: nat)
    requires k < |ts| && Norm(ts)[k].kind != StrLiteral
    ensures ts[k] == Norm(ts)[k]
  {
  }

  lemma TailComplete(ts: seq<Token>, table: string, where: Option<WhereClause>, end: seq<Token>)
    requires FitsName(table) && FitsWhere(where) && (end == [] || end == [SEMICOLON])
    requires Norm(ts) == TailForm(table, where, end)
    ensures Tail(ts) == Some((table, where))
  {
    FixedToken(ts, 0);
    NormSplit(ts, 1);
    if where.None? {
      assert Norm(ts[1..]) == end;
      FinishedForm(ts[1..]);
    } else {
      FixedToken(ts, 1);
      NormSplit(ts, 2);
      assert Norm(ts[2..]) == WhereForm(where.value, end);
      WhereComplete(ts[2..], where.value, end);
    }
  }

  lemma WhereComplete(ts: seq<Token>, where: WhereClause, end: seq<Token>)
    requires FitsWhere(Some(where)) && (end == [] || end == [SEMICOLON]) && Norm(ts) == WhereForm(where, end)
    ensures WhereFrom(ts).Some? && WhereFrom(ts).value.value == where && Finished(WhereFrom(ts).value.rest)
  {
    FixedToken(ts, 0);
    FixedToken(ts, 1);
    assert AsString(ts[2]) == Norm(ts)[2] == ItemToken(where.value, true);
    NormSplit(ts, 3);
    assert Norm(ts[3..]) == end;
    FinishedForm(ts[3..]);
  }

  lemma ValuesComplete(ts: seq<Token>, table: string, columns: seq<string>, values: seq<string>, end: seq<Token>)
    requires values != [] && |values| == |columns| && FitsItems(values, true) && (end == [] || end == [SEMICOLON])
    requires Norm(ts) == ValuesForm(values, end)
    ensures InsertValues(table, columns, ts) == Some(Insert(InsertStatement(table, columns, values)))
  {
    FixedToken(ts, 0);
    FixedToken(ts, 1);
    FixedToken(ts, 2);
    NormSplit(ts, 3);
    var close := [RPAREN] + end;
    assert Norm(ts[3..]) == ListForm(values, true, close);
    ItemsComplete(ts[3..], MAX_COLUMNS, values, true, close);
    var rest := ts[3..][|ts[3..]| - |close|..];
    FixedToken(rest, 0);
    NormSplit(rest, 1);
    assert Norm(rest[1..]) == end;
    FinishedForm(rest[1..]);
  }

  lemma InsertComplete(ts: seq<Token>, s: InsertStatement, end: seq<Token>)
    requires Expressible(Insert(s)) && (end == [] || end == [SEMICOLON]) && Norm(ts) == Form(Insert(s), end)
    ensures ParseTokens(ts) == Some(Insert(s))
  {
    hide InsertValues, ListForm;
    FixedToken(ts, 0);
    FixedToken(ts, 1);
    FixedToken(ts, 2);
    FixedToken(ts, 3);
    NormSplit(ts, 4);
    var values := ValuesForm(s.values, end);
    assert Norm(ts[4..]) == ListForm(s.columns, false, values);
    ItemsComplete(ts[4..], MAX_COLUMNS, s.columns, false, values);
    ValuesComplete(ts[4..][|ts[4..]| - |values|..], s.table, s.columns, s.values, end);
  }

  lemma SelectComplete(ts: seq<Token>, s: SelectStatement, end: seq<Token>)
    requires Expressible(Select(s)) && (end == [] || end == [SEMICOLON]) && Norm(ts) == Form(Select(s), end)
    ensures ParseTokens(ts) == Some(Select(s))
  {
    hide ListForm, TailForm, Tail;
    FixedToken(ts, 0);
    NormSplit(ts, 1);
    var tail := TailForm(s.table, s.where, end);
    var from := [Word("FROM")] + tail;
    assert Norm(ts[1..]) == ColumnsForm(s.columns, from);
    var rest;
    if s.columns == [] {
      FixedToken(ts, 1);
      NormSplit(ts[1..], 1);
      rest := ts[1..][1..];
    } else {
      ListStarts(ts[1..], s.columns, from);
      ItemsComplete(ts[1..], MAX_COLUMNS, s.columns, false, from);
      rest := ts[1..][|ts[1..]| - |from|..];
    }
    assert Norm(rest) == from;
    FixedToken(rest, 0);
    NormSplit(rest, 1);
    assert Norm(rest[1..]) == tail;
    TailComplete(rest[1..], s.table, s.where, end);
  }

  lemma DeleteComplete(ts: seq<Token>, s: DeleteStatement, end: seq<Token>)
    requires Expressible(Delete(s)) && (end == [] || end == [SEMICOLON]) && Norm(ts) == Form(Delete(s), end)
    ensures ParseTokens(ts) == Some(Delete(s))
  {
    hide TailForm, Tail;
    FixedToken(ts, 0);
    FixedToken(ts, 1);
    NormSplit(ts, 2);
    assert Norm(ts[2..]) == TailForm(s.table, s.where, end);
    TailComplete(ts[2..], s.table, s.where, end);
  }

  // ---- the theorem --------------------------------------------------------------------------------

  /** Exactness: success with a statement and being that statement's token form are the
      same thing, for every token list and every statement. */
  lemma ParserIsExact(ts: seq<Token>, stmt: Statement)
    ensures ParseTokens(ts) == Some(stmt) <==> IsFormOf(ts, stmt)
  {
    hide InsertFrom, Parser.SelectFrom, DeleteFrom, Form, Expressible;
    if ParseTokens(ts) == Some(stmt) {
      if Starts(ts, Word("INSERT")) {
        InsertSound(ts);
      } else if Starts(ts, Word("SELECT")) {
        SelectSound(ts);
      } else {
        DeleteSound(ts);
      }
    }
    if IsFormOf(ts, stmt) {
      var end := if Norm(ts) == Form(stmt, []) then [] else [SEMICOLON];
      match stmt
      case Insert(s) => InsertComplete(ts, s, end);
      case Select(s) => SelectComplete(ts, s, end);
      case Delete(s) => DeleteComplete(ts, s, end);
    }
  }

  /** A token list stands for at most one statement. */
  lemma FormsAreUnambiguous(ts: seq<Token>, a: Statement, b: Statement)
    requires IsFormOf(ts, a) && IsFormOf(ts, b)
    ensures a == b
  {
    ParserIsExact(ts, a);
    ParserIsExact(ts, b);
  }
}
