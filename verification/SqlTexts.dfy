/** How each statement is written, letter by letter: the text of an INSERT, a SELECT and a
    DELETE without reference to tokens, and that the engine reads it as that statement. */
module SqlTexts {
  import opened Text
  import opened Statements
  import opened Tokenizer
  import opened Lexing
  import opened Parser
  import opened Grammar
  import opened SqlText
  import opened Queries

  // ---- the texts ----------------------------------------------------------------------

  /** A value in quotes, its own quotes doubled; an integer may stand `bare`. */
  function ValueText(value: string, bare: bool): (text: string) {
    if bare && IsIntegerText(value) then value else "'" + Doubled(value) + "'"
  }

  function ValueTexts(values: seq<string>, bare: bool): (texts: seq<string>)
    ensures |texts| == |values|
  {
    seq(|values|, i requires 0 <= i < |values| => ValueText(values[i], bare))
  }

  function Commas(texts: seq<string>): (text: string)
    requires texts != []
  {
    if |texts| == 1 then texts[0] else texts[0] + " , " + Commas(texts[1..])
  }

  function WhereText(where: WhereClause, bare: bool): (text: string) {
    "WHERE " + where.column + " " + where.op + " " + ValueText(where.value, bare)
  }

  function ConditionText(where: Option<WhereClause>, bare: bool): (text: string) {
    if where.None? then "" else " " + WhereText(where.value, bare)
  }

  function SqlOf(stmt: Statement, bare: bool): (sql: string)
    requires stmt.Insert? ==> stmt.insert.columns != [] && stmt.insert.values != []
  {
    match stmt
    case Insert(s) =>
      "INSERT INTO " + s.table + " ( " + Commas(s.columns) + " ) VALUES ( " + Commas(ValueTexts(s.values, bare))
      + " ) ;"
    case Select(s) =>
      "SELECT " + (if s.columns == [] then "*" else Commas(s.columns)) + " FROM " + s.table
      + ConditionText(s.where, bare) + " ;"
    case Delete(s) => "DELETE FROM " + s.table + ConditionText(s.where, bare) + " ;"
  }

  // ---- tokens one space apart ------------------------------------------------------------

  function Bared(t: Token, bare: bool): (token: Token) {
    if bare && t.kind == StrLiteral && IsIntegerText(t.value) then Token(IntLiteral, t.value) else t
  }

  function AllBared(ts: seq<Token>, bare: bool): (tokens: seq<Token>)
    ensures |tokens| == |ts|
  {
    seq(|ts|, i requires 0 <= i < |ts| => Bared(ts[i], bare))
  }

  function Spaced(ts: seq<Token>, bare: bool): (text: string)
    requires ts != []
  {
    if |ts| == 1 then Spell(Bared(ts[0], bare)) else Spell(Bared(ts[0], bare)) + " " + Spaced(ts[1..], bare)
  }

  /** Integers without quotes are the same statement. */
  lemma BaredIsForm(ts: seq<Token>, bare: bool)
    requires AllCanonical(ts)
    ensures AllCanonical(AllBared(ts, bare)) && Norm(AllBared(ts, bare)) == Norm(ts)
  {
    forall i | 0 <= i < |ts| ensures Canonical(AllBared(ts, bare)[i]) {
      assert Canonical(ts[i]);
    }
  }

  lemma {:induction false} SpacedIsLayout(ts: seq<Token>, bare: bool, gaps: seq<string>)
    requires ts != [] && |gaps| == |ts| + 1 && gaps[|ts|] == ""
    requires forall i :: 0 < i < |ts| ==> gaps[i] == " "
    ensures Layout(AllBared(ts, bare), gaps) == gaps[0] + Spaced(ts, bare)
    decreases |ts|
  {
    hide Spell, Bared;
    var tokens := AllBared(ts, bare);
    if |ts| > 1 {
      SpacedIsLayout(ts[1..], bare, gaps[1..]);
      assert tokens[1..] == AllBared(ts[1..], bare);
      assert gaps[1] == " ";
    } else {
      assert tokens[1..] == [] && Layout(tokens[1..], gaps[1..]) == "";
    }
  }

  lemma SpacedFront(t: Token, rest: seq<Token>, bare: bool)
    requires rest != []
    ensures Spaced([t] + rest, bare) == Spell(Bared(t, bare)) + " " + Spaced(rest, bare)
  {
    hide Spell, Bared;
    assert ([t] + rest)[1..] == rest;
  }

  lemma ItemIsText(value: string, literal: bool, bare: bool)
    ensures Spell(Bared(ItemToken(value, literal), bare)) == if literal then ValueText(value, bare) else value
  {
  }

  lemma PunctuationText(bare: bool)
    ensures Spell(Bared(COMMA, bare)) == "," && Spell(Bared(LPAREN, bare)) == "(" && Spell(Bared(RPAREN, bare)) == ")"
    ensures Spell(Bared(STAR, bare)) == "*" && Spell(Bared(SEMICOLON, bare)) == ";"
  {
  }

  lemma KeywordText(keyword: string, bare: bool)
    ensures Spell(Bared(Word(keyword), bare)) == keyword
  {
  }

  lemma CommaBetween(first: string, more: string, end: string)
    ensures first + " " + ("," + " " + (more + " " + end)) == (first + " , " + more) + " " + end
  {
    var rest := more + " " + end;
    assert first + " , " + more + " " + end == first + " , " + rest;
    assert first + " " + ("," + " " + rest) == first + (" " + "," + " ") + rest;
    assert " " + "," + " " == " , ";
  }

  lemma SpacedMore(xs: seq<string>, literal: bool, end: seq<Token>, bare: bool)
    requires |xs| > 1 && end != []
    ensures Spaced(ListForm(xs, literal, end), bare)
      == Spell(Bared(ItemToken(xs[0], literal), bare)) + " "
         + ("," + " " + Spaced(ListForm(xs[1..], literal, end), bare))
  {
    hide Spell, Bared, ItemToken, Spaced;
    var more := ListForm(xs[1..], literal, end);
    assert ListForm(xs, literal, end) == [ItemToken(xs[0], literal)] + ([COMMA] + more);
    SpacedFront(ItemToken(xs[0], literal), [COMMA] + more, bare);
    SpacedFront(COMMA, more, bare);
    PunctuationText(bare);
  }

  lemma {:induction false} SpacedList(xs: seq<string>, literal: bool, end: seq<Token>, bare: bool)
    requires xs != [] && end != []
    ensures Spaced(ListForm(xs, literal, end), bare)
      == Commas(if literal then ValueTexts(xs, bare) else xs) + " " + Spaced(end, bare)
    decreases |xs|
  {
    ItemIsText(xs[0], literal, bare);
    hide Spell, Bared, ValueText, ItemToken, Spaced;
    var texts := if literal then ValueTexts(xs, bare) else xs;
    if |xs| == 1 {
      SpacedFront(ItemToken(xs[0], literal), end, bare);
    } else {
      SpacedMore(xs, literal, end, bare);
      hide ListForm;
      SpacedList(xs[1..], literal, end, bare);
      assert texts[1..] == if literal then ValueTexts(xs[1..], bare) else xs[1..];
      CommaBetween(texts[0], Commas(texts[1..]), Spaced(end, bare));
    }
  }

  lemma {:induction false} SpacedJoin(a: seq<Token>, b: seq<Token>, bare: bool)
    requires a != [] && b != []
    ensures Spaced(a + b, bare) == Spaced(a, bare) + " " + Spaced(b, bare)
    decreases |a|
  {
    hide Spell, Bared;
    SpacedFront(a[0], a[1..] + b, bare);
    assert a + b == [a[0]] + (a[1..] + b);
    if |a| > 1 {
      SpacedJoin(a[1..], b, bare);
    } else {
      assert a[1..] + b == b;
    }
  }

  lemma InsertFront(table: string, bare: bool)
    ensures Spaced([Word("INSERT"), Word("INTO"), ItemToken(table, false), LPAREN], bare)
      == "INSERT INTO " + table + " ("
  {
    hide Spell, Bared, ItemToken, Word;
    KeywordText("INSERT", bare);
    KeywordText("INTO", bare);
    ItemIsText(table, false, bare);
    PunctuationText(bare);
    SpacedFront(ItemToken(table, false), [LPAREN], bare);
    SpacedFront(Word("INTO"), [ItemToken(table, false), LPAREN], bare);
    SpacedFront(Word("INSERT"), [Word("INTO"), ItemToken(table, false), LPAREN], bare);
    assert "INSERT" + " " + ("INTO" + " " + (table + " " + "("))
      == ("INSERT" + " " + "INTO" + " ") + table + (" " + "(");
    assert "INSERT" + " " + "INTO" + " " == "INSERT INTO " && " " + "(" == " (";
  }

  lemma ValuesFront(bare: bool)
    ensures Spaced([RPAREN, Word("VALUES"), LPAREN], bare) == ") VALUES ("
  {
    hide Spell, Bared, Word;
    KeywordText("VALUES", bare);
    PunctuationText(bare);
    SpacedFront(Word("VALUES"), [LPAREN], bare);
    SpacedFront(RPAREN, [Word("VALUES"), LPAREN], bare);
    assert ")" + " " + ("VALUES" + " " + "(") == ") VALUES (";
  }

  lemma InsertPieces(table: string, columns: string, values: string)
    ensures "INSERT INTO " + table + " (" + " " + (columns + " " + (") VALUES (" + " " + (values + " " + ") ;")))
      == "INSERT INTO " + table + " ( " + columns + " ) VALUES ( " + values + " ) ;"
  {
    assert " (" + " " == " ( ";
    assert " " + ") VALUES (" + " " == " ) VALUES ( ";
    assert " " + ") ;" == " ) ;";
    var head := "INSERT INTO " + table;
    assert head + " (" + " " == head + (" (" + " ");
    assert columns + " " + (") VALUES (" + " " + (values + " " + ") ;"))
      == columns + (" " + ") VALUES (" + " ") + values + (" " + ") ;");
    assert head + " ( " + (columns + " ) VALUES ( " + values + " ) ;")
      == head + " ( " + columns + " ) VALUES ( " + values + " ) ;";
  }

  lemma SpacedInsert(s: InsertStatement, bare: bool)
    requires Expressible(Insert(s))
    ensures Spaced(Form(Insert(s), [SEMICOLON]), bare) == SqlOf(Insert(s), bare)
  {
    hide Spaced, Commas, ListForm;
    var end := [RPAREN] + [SEMICOLON];
    assert Spaced(end, bare) == ") ;" by {
      PunctuationText(bare);
      SpacedFront(RPAREN, [SEMICOLON], bare);
      assert ")" + " " + ";" == ") ;";
      assert Spaced([SEMICOLON], bare) == ";" by { SpacedOne(SEMICOLON, bare); }
    }
    SpacedList(s.values, true, end, bare);
    ValuesFront(bare);
    SpacedJoin([RPAREN, Word("VALUES"), LPAREN], ListForm(s.values, true, end), bare);
    SpacedList(s.columns, false, ValuesForm(s.values, [SEMICOLON]), bare);
    InsertFront(s.table, bare);
    SpacedJoin([Word("INSERT"), Word("INTO"), ItemToken(s.table, false), LPAREN],
               ListForm(s.columns, false, ValuesForm(s.values, [SEMICOLON])), bare);
    InsertPieces(s.table, Commas(s.columns), Commas(ValueTexts(s.values, bare)));
  }

  lemma SpacedOne(t: Token, bare: bool)
    ensures Spaced([t], bare) == Spell(Bared(t, bare))
  {
  }

  lemma SpacedWhere(where: WhereClause, bare: bool)
    ensures Spaced([Word("WHERE")] + WhereForm(where, [SEMICOLON]), bare) == WhereText(where, bare) + " ;"
  {
    hide Spaced, Spell, Bared, ItemToken, Word, ValueText;
    var column, op, value := ItemToken(where.column, false), Token(Operator, where.op), ItemToken(where.value, true);
    KeywordText("WHERE", bare);
    PunctuationText(bare);
    ItemIsText(where.column, false, bare);
    ItemIsText(where.value, true, bare);
    OperatorText(where.op, bare);
    SpacedOne(SEMICOLON, bare);
    SpacedFront(value, [SEMICOLON], bare);
    SpacedFront(op, [value] + [SEMICOLON], bare);
    SpacedFront(column, [op] + ([value] + [SEMICOLON]), bare);
    assert WhereForm(where, [SEMICOLON]) == [column] + ([op] + ([value] + [SEMICOLON]));
    SpacedFront(Word("WHERE"), WhereForm(where, [SEMICOLON]), bare);
    WherePieces(where.column, where.op, ValueText(where.value, bare));
  }

  lemma OperatorText(op: string, bare: bool)
    ensures Spell(Bared(Token(Operator, op), bare)) == op
  {
  }

  lemma WherePieces(column: string, op: string, value: string)
    ensures "WHERE" + " " + (column + " " + (op + " " + (value + " " + ";")))
      == "WHERE " + column + " " + op + " " + value + " ;"
  {
    assert "WHERE" + " " == "WHERE " && " " + ";" == " ;";
    assert value + " " + ";" == value + (" " + ";");
    assert "WHERE " + (column + " " + (op + " " + (value + " ;"))) == "WHERE " + column + " " + op + " " + value + " ;";
  }

  lemma TailPieces(table: string, where: string)
    ensures table + " " + (where + " ;") == table + (" " + where) + " ;"
    ensures table + " " + ";" == table + "" + " ;"
  {
    assert " " + ";" == " ;" && table + "" == table;
  }

  /** The table, the condition if there is one, and the end. */
  lemma SpacedTail(table: string, where: Option<WhereClause>, bare: bool)
    ensures TailForm(table, where, [SEMICOLON]) != []
    ensures Spaced(TailForm(table, where, [SEMICOLON]), bare) == table + ConditionText(where, bare) + " ;"
  {
    hide Spaced, WhereForm, Spell, Bared, ItemToken, Word, ValueText, WhereText;
    ItemIsText(table, false, bare);
    if where.None? {
      PunctuationText(bare);
      SpacedOne(SEMICOLON, bare);
      SpacedFront(ItemToken(table, false), [SEMICOLON], bare);
      TailPieces(table, "");
    } else {
      SpacedWhere(where.value, bare);
      SpacedFront(ItemToken(table, false), [Word("WHERE")] + WhereForm(where.value, [SEMICOLON]), bare);
      TailPieces(table, WhereText(where.value, bare));
    }
  }

  lemma SpacedSelect(s: SelectStatement, bare: bool)
    requires Expressible(Select(s))
    ensures Spaced(Form(Select(s), [SEMICOLON]), bare) == SqlOf(Select(s), bare)
  {
    hide Spaced, Commas, ListForm, TailForm, ConditionText, Spell, Bared, Word;
    var tail := TailForm(s.table, s.where, [SEMICOLON]);
    var from := [Word("FROM")] + tail;
    var columns := if s.columns == [] then "*" else Commas(s.columns);
    SpacedTail(s.table, s.where, bare);
    KeywordText("FROM", bare);
    SpacedFront(Word("FROM"), tail, bare);
    if s.columns == [] {
      PunctuationText(bare);
      SpacedFront(STAR, from, bare);
    } else {
      SpacedList(s.columns, false, from, bare);
    }
    KeywordText("SELECT", bare);
    SpacedFront(Word("SELECT"), ColumnsForm(s.columns, from), bare);
    SelectPieces(columns, s.table, ConditionText(s.where, bare));
  }

  lemma SelectPieces(columns: string, table: string, condition: string)
    ensures "SELECT" + " " + (columns + " " + ("FROM" + " " + (table + condition + " ;")))
      == "SELECT " + columns + " FROM " + table + condition + " ;"
  {
    assert "SELECT" + " " == "SELECT ";
    assert " " + "FROM" + " " == " FROM ";
    var rest := table + condition + " ;";
    assert columns + " " + ("FROM" + " " + rest) == columns + (" " + "FROM" + " ") + rest;
    assert "SELECT " + (columns + " FROM " + rest) == "SELECT " + columns + " FROM " + table + condition + " ;";
  }

  lemma SpacedDelete(s: DeleteStatement, bare: bool)
    requires Expressible(Delete(s))
    ensures Spaced(Form(Delete(s), [SEMICOLON]), bare) == SqlOf(Delete(s), bare)
  {
    hide Spaced, TailForm, ConditionText, Spell, Bared, Word;
    var tail := TailForm(s.table, s.where, [SEMICOLON]);
    SpacedTail(s.table, s.where, bare);
    KeywordText("DELETE", bare);
    KeywordText("FROM", bare);
    SpacedFront(Word("FROM"), tail, bare);
    SpacedFront(Word("DELETE"), [Word("FROM")] + tail, bare);
    assert [Word("DELETE"), Word("FROM")] + tail == [Word("DELETE")] + ([Word("FROM")] + tail);
    DeletePieces(s.table, ConditionText(s.where, bare));
  }

  lemma DeletePieces(table: string, condition: string)
    ensures "DELETE" + " " + ("FROM" + " " + (table + condition + " ;")) == "DELETE FROM " + table + condition + " ;"
  {
    var rest := table + condition + " ;";
    assert "DELETE" + " " + ("FROM" + " " + rest) == ("DELETE" + " " + "FROM" + " ") + rest;
    assert "DELETE" + " " + "FROM" + " " == "DELETE FROM ";
    assert "DELETE FROM " + rest == "DELETE FROM " + table + condition + " ;";
  }

  // ---- the theorem --------------------------------------------------------------------------

  lemma SpacedIsSql(stmt: Statement, bare: bool)
    requires Expressible(stmt)
    ensures Form(stmt, [SEMICOLON]) != [] && Spaced(Form(stmt, [SEMICOLON]), bare) == SqlOf(stmt, bare)
  {
    hide Spaced, Commas, ConditionText, ListForm;
    match stmt
    case Insert(s) => SpacedInsert(s, bare);
    case Select(s) => SpacedSelect(s, bare);
    case Delete(s) => SpacedDelete(s, bare);
  }

  lemma SpacedReadsBack(stmt: Statement, form: seq<Token>, bare: bool)
    requires form != [] && AllCanonical(form) && IsFormOf(form, stmt)
    ensures QueryOf(Spaced(form, bare)) == Query.Parsed(stmt)
  {
    hide Expressible, Form, Norm, AllCanonical, Layout, QueryOf, Spaced, AllBared, GapsOk;
    var tokens := AllBared(form, bare);
    BaredIsForm(form, bare);
    assert IsFormOf(tokens, stmt);
    hide IsFormOf;
    SpacesAreGaps(tokens);
    LayoutRoundTrip(stmt, tokens, Spaces(|tokens|));
    SpacedIsLayout(form, bare, Spaces(|tokens|));
    assert "" + Spaced(form, bare) == Spaced(form, bare);
  }

  /** The engine reads the text of a statement as that statement, whether its integers are
      quoted or not. */
  lemma SqlRoundTrip(stmt: Statement, bare: bool)
    requires CanBeWritten(stmt)
    ensures QueryOf(SqlOf(stmt, bare)) == Query.Parsed(stmt)
  {
    PrintableExactly(stmt);
    assert Printable(stmt) && Expressible(stmt);
    hide Expressible, CanBeWritten, Printable, Form, Norm, AllCanonical, QueryOf, Spaced, SqlOf;
    SpacedIsSql(stmt, bare);
    FormIsCanonical(stmt, [SEMICOLON]);
    FormIsNormal(stmt, [SEMICOLON]);
    SpacedReadsBack(stmt, Form(stmt, [SEMICOLON]), bare);
  }
}
