/** From SQL text to statement and back: what the facade does with a text before it
    runs (`db_engine_parse_statement` and the front part of `db_execute_sql` in
    src/db/db_engine_facade.c). */
module SqlText {
  import opened Text
  import opened Alphabet
  import opened Csv
  import opened Statements
  import opened Tokenizer
  import opened Lexing
  import opened TokenizerCaches
  import opened Parser
  import opened Grammar
  import opened EngineInvariant
  import opened Queries

  /** The query a text stands for. */
  function QueryOf(sql: string): (query: Query) {
    if Trimmed(sql) == "" then Rejected("SQL statement is empty.")
    else
      var tokens := TokenizeText(Trimmed(sql));
      if tokens.None? then Rejected("Failed to tokenize SQL statement.")
      else
        var stmt := ParseTokens(tokens.value);
        if stmt.None? then Rejected("Failed to parse SQL statement.") else Query.Parsed(stmt.value)
  }

  // ---- printing ----------------------------------------------------------------------

  predicate IsIdentifier(name: string) {
    name == "*" || (IsWord(name) && !IsKeyword(name))
  }

  predicate AreIdentifiers(names: seq<string>) {
    forall i :: 0 <= i < |names| ==> IsIdentifier(names[i])
  }

  predicate IsCondition(where: Option<WhereClause>) {
    where.Some? ==> IsIdentifier(where.value.column) && IsOperator(where.value.op)
  }

  /** The statements that can be written as SQL text: names are identifiers of fewer
      than 64 characters that are no keywords, and values have fewer than 256. */
  predicate Printable(stmt: Statement) {
    Expressible(stmt) &&
    match stmt
    case Insert(s) => IsIdentifier(s.table) && AreIdentifiers(s.columns)
    case Select(s) => IsIdentifier(s.table) && AreIdentifiers(s.columns) && IsCondition(s.where)
    case Delete(s) => IsIdentifier(s.table) && IsCondition(s.where)
  }

  /** One way to write a statement: single spaces between tokens, values in quotes with
      their own quotes doubled, and a final semicolon. */
  function Print(stmt: Statement): (text: string)
    requires Printable(stmt)
  {
    var tokens := Form(stmt, [SEMICOLON]);
    Layout(tokens, Spaces(|tokens|))
  }

  function Spaces(n: nat): (gaps: seq<string>)
    ensures |gaps| == n + 1
  {
    seq(n + 1, i requires 0 <= i < n + 1 => if 0 < i < n then " " else "")
  }

  // ---- forms are canonical tokens --------------------------------------------------------

  lemma ItemIsCanonical(value: string, literal: bool)
    requires IsItem(ItemToken(value, literal), literal) && (!literal ==> IsIdentifier(value))
    ensures Canonical(ItemToken(value, literal))
  {
  }

  lemma {:induction false} ListIsCanonical(xs: seq<string>, literal: bool, end: seq<Token>)
    requires xs != [] && FitsItems(xs, literal) && (!literal ==> AreIdentifiers(xs)) && AllCanonical(end)
    ensures AllCanonical(ListForm(xs, literal, end))
    decreases |xs|
  {
    ItemIsCanonical(xs[0], literal);
    hide Canonical, ItemToken, IsItem;
    if |xs| > 1 {
      ListIsCanonical(xs[1..], literal, end);
      assert Canonical(COMMA) by { CommaIsCanonical(); }
    }
  }

  lemma CommaIsCanonical()
    ensures Canonical(COMMA)
  {
  }

  lemma TailIsCanonical(table: string, where: Option<WhereClause>, end: seq<Token>)
    requires FitsName(table) && IsIdentifier(table) && FitsWhere(where) && IsCondition(where) && AllCanonical(end)
    ensures AllCanonical(TailForm(table, where, end))
  {
    ItemIsCanonical(table, false);
    KeywordsAreCanonical();
    if where.Some? {
      ItemIsCanonical(where.value.column, false);
      ItemIsCanonical(where.value.value, true);
      assert Canonical(Token(Operator, where.value.op));
    }
    hide Canonical;
  }

  lemma KeywordsAreCanonical()
    ensures forall i :: 0 <= i < |KEYWORDS| ==> Canonical(Word(KEYWORDS[i]))
    ensures Canonical(Word("INSERT")) && Canonical(Word("INTO")) && Canonical(Word("VALUES"))
      && Canonical(Word("SELECT"))
    ensures Canonical(Word("FROM")) && Canonical(Word("DELETE")) && Canonical(Word("WHERE"))
    ensures Canonical(LPAREN) && Canonical(RPAREN) && Canonical(STAR) && Canonical(SEMICOLON)
  {
    assert KEYWORDS[0] == "INSERT" && KEYWORDS[1] == "SELECT" && KEYWORDS[2] == "DELETE" && KEYWORDS[3] == "INTO";
    assert KEYWORDS[4] == "FROM" && KEYWORDS[5] == "WHERE" && KEYWORDS[6] == "VALUES";
  }

  lemma JoinCanonical(a: seq<Token>, b: seq<Token>)
    requires AllCanonical(a) && AllCanonical(b)
    ensures AllCanonical(a + b)
  {
    hide Canonical;
  }

  lemma InsertIsCanonical(s: InsertStatement, end: seq<Token>)
    requires Printable(Insert(s)) && AllCanonical(end)
    ensures AllCanonical(Form(Insert(s), end))
  {
    KeywordsAreCanonical();
    ItemIsCanonical(s.table, false);
    JoinCanonical([RPAREN], end);
    ListIsCanonical(s.values, true, [RPAREN] + end);
    hide Canonical, ListForm, Printable;
    JoinCanonical([RPAREN, Word("VALUES"), LPAREN], ListForm(s.values, true, [RPAREN] + end));
    ListIsCanonical(s.columns, false, ValuesForm(s.values, end));
    JoinCanonical([Word("INSERT"), Word("INTO"), ItemToken(s.table, false), LPAREN],
                  ListForm(s.columns, false, ValuesForm(s.values, end)));
  }

  lemma SelectIsCanonical(s: SelectStatement, end: seq<Token>)
    requires Printable(Select(s)) && AllCanonical(end)
    ensures AllCanonical(Form(Select(s), end))
  {
    KeywordsAreCanonical();
    TailIsCanonical(s.table, s.where, end);
    hide Canonical, ListForm, TailForm;
    var from := [Word("FROM")] + TailForm(s.table, s.where, end);
    JoinCanonical([Word("FROM")], TailForm(s.table, s.where, end));
    if s.columns != [] {
      ListIsCanonical(s.columns, false, from);
    } else {
      JoinCanonical([STAR], from);
    }
    JoinCanonical([Word("SELECT")], ColumnsForm(s.columns, from));
  }

  lemma DeleteIsCanonical(s: DeleteStatement, end: seq<Token>)
    requires Printable(Delete(s)) && AllCanonical(end)
    ensures AllCanonical(Form(Delete(s), end))
  {
    KeywordsAreCanonical();
    TailIsCanonical(s.table, s.where, end);
    hide Canonical, TailForm;
    JoinCanonical([Word("DELETE"), Word("FROM")], TailForm(s.table, s.where, end));
  }

  lemma FormIsCanonical(stmt: Statement, end: seq<Token>)
    requires Printable(stmt) && (end == [] || end == [SEMICOLON])
    ensures AllCanonical(Form(stmt, end))
  {
    hide Printable, Form;
    assert AllCanonical(end) by { KeywordsAreCanonical(); }
    match stmt
    case Insert(s) => InsertIsCanonical(s, end);
    case Select(s) => SelectIsCanonical(s, end);
    case Delete(s) => DeleteIsCanonical(s, end);
  }

  predicate NoIntegers(ts: seq<Token>) {
    forall i :: 0 <= i < |ts| ==> ts[i].kind != IntLiteral
  }

  lemma {:induction false} ListHasNoIntegers(xs: seq<string>, literal: bool, end: seq<Token>)
    requires xs != [] && NoIntegers(end)
    ensures NoIntegers(ListForm(xs, literal, end))
    decreases |xs|
  {
    if |xs| > 1 {
      ListHasNoIntegers(xs[1..], literal, end);
    }
  }

  lemma NoIntegersIsNormal(ts: seq<Token>)
    requires NoIntegers(ts)
    ensures Norm(ts) == ts
  {
  }

  lemma TailHasNoIntegers(table: string, where: Option<WhereClause>, end: seq<Token>)
    requires NoIntegers(end)
    ensures NoIntegers(TailForm(table, where, end))
  {
  }

  /** A form writes every literal as a string, so it is its own normal form. */
  lemma FormIsNormal(stmt: Statement, end: seq<Token>)
    requires Expressible(stmt) && (end == [] || end == [SEMICOLON])
    ensures Norm(Form(stmt, end)) == Form(stmt, end)
  {
    match stmt
    case Insert(s) =>
      ListHasNoIntegers(s.values, true, [RPAREN] + end);
      ListHasNoIntegers(s.columns, false, ValuesForm(s.values, end));
      hide ListForm, Norm, Expressible;
    case Select(s) =>
      TailHasNoIntegers(s.table, s.where, end);
      hide TailForm;
      if s.columns != [] {
        ListHasNoIntegers(s.columns, false, [Word("FROM")] + TailForm(s.table, s.where, end));
      }
      hide ListForm, Norm, Expressible;
    case Delete(s) =>
      TailHasNoIntegers(s.table, s.where, end);
      hide TailForm, Norm, Expressible;
    NoIntegersIsNormal(Form(stmt, end));
  }

  // ---- round trips ---------------------------------------------------------------------------

  /** Any layout of any token form of a statement, whichever way its literals are
      written, lexes and parses back to that statement. */
  lemma TextRoundTrip(stmt: Statement, tokens: seq<Token>, gaps: seq<string>)
    requires AllCanonical(tokens) && IsFormOf(tokens, stmt) && GapsOk(tokens, gaps)
    ensures Tokenize(Layout(tokens, gaps)) == Some(tokens)
    ensures ParseTokens(tokens) == Some(stmt)
  {
    LayoutLexes(tokens, gaps);
    ParserIsExact(tokens, stmt);
  }

  lemma NothingIsNoStatement()
    ensures Tokenize("") == Some([]) && ParseTokens([]).None?
  {
  }

  /** For every text: the engine reads it as a statement if and only if its tokens are a
      form of that statement. */
  lemma QueryOfExactly(sql: string, stmt: Statement)
    ensures QueryOf(sql) == Query.Parsed(stmt) <==> Tokenize(sql).Some? && IsFormOf(Tokenize(sql).value, stmt)
  {
    hide Tokenize, ParseTokens, Trimmed, IsFormOf;
    TrimmedIsTrimmed(sql);
    TokenizeTrimmed(sql);
    NothingIsNoStatement();
    if Tokenize(sql).Some? {
      ParserIsExact(Tokenize(sql).value, stmt);
    }
  }

  /** The engine reads any layout of any token form of a statement, white space around it
      included, as that statement. */
  lemma LayoutRoundTrip(stmt: Statement, tokens: seq<Token>, gaps: seq<string>)
    requires AllCanonical(tokens) && IsFormOf(tokens, stmt) && GapsOk(tokens, gaps)
    ensures QueryOf(Layout(tokens, gaps)) == Query.Parsed(stmt)
  {
    hide Tokenize, IsFormOf, AllCanonical, QueryOf;
    TextRoundTrip(stmt, tokens, gaps);
    QueryOfExactly(Layout(tokens, gaps), stmt);
  }

  /** Gaps of blanks, tabs, newlines, vertical tabs, form feeds and carriage returns, one
      of them at least wherever two tokens would run together. */
  predicate WhiteGaps(tokens: seq<Token>, gaps: seq<string>) {
    && |gaps| == |tokens| + 1
    && (forall i, k :: 0 <= i < |gaps| && 0 <= k < |gaps[i]| ==> White(gaps[i][k]))
    && forall i :: 0 < i < |tokens| ==> Apart(tokens[i - 1], gaps[i], tokens[i])
  }

  /** A statement may be written with any of these characters between its tokens and
      around them. */
  lemma WhiteLayoutRoundTrip(stmt: Statement, tokens: seq<Token>, gaps: seq<string>)
    requires AllCanonical(tokens) && IsFormOf(tokens, stmt) && WhiteGaps(tokens, gaps)
    ensures QueryOf(Layout(tokens, gaps)) == Query.Parsed(stmt)
  {
    hide AllCanonical, IsFormOf, QueryOf, Apart, White, IsSpace;
    forall i | 0 <= i < |gaps| ensures IsBlank(gaps[i]) {
      forall k | 0 <= k < |gaps[i]| ensures IsSpace(gaps[i][k]) {
        SpacesAre(gaps[i][k]);
      }
    }
    LayoutRoundTrip(stmt, tokens, gaps);
  }

  /** A white text is an empty statement, and nothing else is. */
  lemma EmptyExactly(sql: string)
    ensures QueryOf(sql) == Rejected("SQL statement is empty.") <==> forall k :: 0 <= k < |sql| ==> White(sql[k])
    ensures Trimmed(sql) == "" <==> forall k :: 0 <= k < |sql| ==> White(sql[k])
  {
    hide White, LexemesFrom;
    NoTokensExactly(sql, 0);
    TokenizeTrimmed(sql);
    TrimmedIsTrimmed(sql);
    NoTokensExactly(Trimmed(sql), 0);
    if Trimmed(sql) != "" {
      SpacesAre(Trimmed(sql)[0]);
    }
    hide Trimmed;
    assert "Failed to tokenize SQL statement."[0] != "SQL statement is empty."[0];
    assert "Failed to parse SQL statement."[0] != "SQL statement is empty."[0];
  }

  lemma SpacesAreGaps(tokens: seq<Token>)
    ensures GapsOk(tokens, Spaces(|tokens|))
  {
    hide Spell, Merges;
    var gaps := Spaces(|tokens|);
    forall i | 0 < i < |tokens| ensures Apart(tokens[i - 1], gaps[i], tokens[i]) {
      assert gaps[i] == " ";
    }
  }

  /** Printing a statement and giving the text to the engine runs that statement. */
  lemma PrintRoundTrip(stmt: Statement)
    requires Printable(stmt)
    ensures QueryOf(Print(stmt)) == Query.Parsed(stmt)
  {
    hide Form, Trimmed, Tokenize, ParseTokens, Layout, Expressible;
    var tokens := Form(stmt, [SEMICOLON]);
    FormIsCanonical(stmt, [SEMICOLON]);
    FormIsNormal(stmt, [SEMICOLON]);
    SpacesAreGaps(tokens);
    LayoutRoundTrip(stmt, tokens, Spaces(|tokens|));
  }

  // ---- what a text can say --------------------------------------------------------------------

  lemma {:induction false} ListFromCanonical(ts: seq<Token>, xs: seq<string>, literal: bool, end: seq<Token>)
    requires AllCanonical(ts) && xs != [] && !literal && Norm(ts) == ListForm(xs, literal, end)
    ensures AreIdentifiers(xs)
    decreases |xs|
  {
    FixedToken(ts, 0);
    assert Canonical(ts[0]);
    if |xs| > 1 {
      NormSplit(ts, 2);
      assert Norm(ts[2..]) == ListForm(xs[1..], literal, end);
      ListFromCanonical(ts[2..], xs[1..], literal, end);
    }
  }

  lemma NameFromCanonical(t: Token)
    requires Canonical(t) && t.kind == Identifier
    ensures IsIdentifier(t.value) && t.value != "" && NoBreaks(t.value)
  {
  }

  lemma TailFromCanonical(ts: seq<Token>, table: string, where: Option<WhereClause>, end: seq<Token>)
    requires AllCanonical(ts) && Norm(ts) == TailForm(table, where, end)
    ensures IsIdentifier(table) && table != "" && IsCondition(where)
  {
    hide Canonical, IsIdentifier, NoBreaks;
    FixedToken(ts, 0);
    NameFromCanonical(ts[0]);
    if where.Some? {
      FixedToken(ts, 2);
      FixedToken(ts, 3);
      NameFromCanonical(ts[2]);
      assert IsOperator(ts[3].value) by { OperatorFromCanonical(ts[3]); }
    }
  }

  lemma OperatorFromCanonical(t: Token)
    requires Canonical(t) && t.kind == Operator
    ensures IsOperator(t.value)
  {
  }

  lemma DropCanonical(ts: seq<Token>, k: nat)
    requires AllCanonical(ts) && k <= |ts|
    ensures AllCanonical(ts[k..])
  {
    hide Canonical;
  }

  lemma InsertFromCanonical(ts: seq<Token>, s: InsertStatement, end: seq<Token>)
    requires AllCanonical(ts) && Expressible(Insert(s)) && Norm(ts) == Form(Insert(s), end)
    ensures Printable(Insert(s)) && s.table != ""
  {
    FixedToken(ts, 2);
    NameFromCanonical(ts[2]);
    NormSplit(ts, 4);
    DropCanonical(ts, 4);
    hide Canonical, ListForm, IsIdentifier;
    assert Norm(ts[4..]) == ListForm(s.columns, false, ValuesForm(s.values, end));
    ListFromCanonical(ts[4..], s.columns, false, ValuesForm(s.values, end));
  }

  lemma SelectFromCanonical(ts: seq<Token>, s: SelectStatement, end: seq<Token>)
    requires AllCanonical(ts) && Expressible(Select(s)) && Norm(ts) == Form(Select(s), end)
    ensures Printable(Select(s)) && s.table != ""
  {
    hide Canonical, ListForm, TailForm, IsIdentifier;
    var tail := TailForm(s.table, s.where, end);
    var from := [Word("FROM")] + tail;
    NormSplit(ts, 1);
    DropCanonical(ts, 1);
    assert Norm(ts[1..]) == ColumnsForm(s.columns, from);
    var k := |ts| - |tail|;
    if s.columns != [] {
      ListFromCanonical(ts[1..], s.columns, false, from);
      ItemsComplete(ts[1..], MAX_COLUMNS, s.columns, false, from);
      assert ts[1..][|ts[1..]| - |from|..] == ts[k - 1..];
      NormSplit(ts[k - 1..], 1);
      assert ts[k - 1..][1..] == ts[k..];
    } else {
      NormSplit(ts, 3);
      assert k == 3;
    }
    assert Norm(ts[k..]) == tail;
    DropCanonical(ts, k);
    TailFromCanonical(ts[k..], s.table, s.where, end);
  }

  lemma DeleteFromCanonical(ts: seq<Token>, s: DeleteStatement, end: seq<Token>)
    requires AllCanonical(ts) && Expressible(Delete(s)) && Norm(ts) == Form(Delete(s), end)
    ensures Printable(Delete(s)) && s.table != ""
  {
    hide Canonical, TailForm, IsIdentifier;
    NormSplit(ts, 2);
    DropCanonical(ts, 2);
    assert Norm(ts[2..]) == TailForm(s.table, s.where, end);
    TailFromCanonical(ts[2..], s.table, s.where, end);
  }

  /** Every statement a text can stand for is printable. */
  lemma ParsedIsPrintable(sql: string)
    requires QueryOf(sql).Parsed?
    ensures Printable(QueryOf(sql).stmt) && TableOf(QueryOf(sql).stmt) != ""
  {
    hide Trimmed, Tokenize, Form, Printable, Expressible, ParseTokens;
    var text := Trimmed(Trimmed(sql));
    var ts, stmt := TokenizeText(Trimmed(sql)).value, QueryOf(sql).stmt;
    assert AllCanonical(ts) by { TokensAreCanonical(text); }
    ParserIsExact(ts, stmt);
    var end := if Norm(ts) == Form(stmt, []) then [] else [SEMICOLON];
    match stmt
    case Insert(s) => InsertFromCanonical(ts, s, end);
    case Select(s) => SelectFromCanonical(ts, s, end);
    case Delete(s) => DeleteFromCanonical(ts, s, end);
  }

  lemma TokensAreCanonical(text: string)
    requires Tokenize(text).Some?
    ensures AllCanonical(Tokenize(text).value)
  {
    LexedIsCanonical(text, 0);
  }

  /** The statements that some text stands for are exactly the printable ones. */
  lemma WritableExactly(stmt: Statement)
    ensures (exists sql :: QueryOf(sql) == Query.Parsed(stmt)) <==> Printable(stmt)
  {
    hide QueryOf, Printable;
    if sql :| QueryOf(sql) == Query.Parsed(stmt) {
      ParsedIsPrintable(sql);
    }
    if Printable(stmt) {
      PrintRoundTrip(stmt);
    }
  }

  lemma ColumnsHaveNoBreaks(names: seq<string>)
    requires AreIdentifiers(names)
    ensures NoBreaksInAny(names)
  {
    forall i | 0 <= i < |names| ensures NoBreaks(names[i]) {
      IdentifierHasNoBreaks(names[i]);
    }
  }

  lemma IdentifierHasNoBreaks(name: string)
    requires IsIdentifier(name)
    ensures NoBreaks(name)
  {
  }

  lemma FitsItemsFit(xs: seq<string>, literal: bool)
    requires FitsItems(xs, literal)
    ensures forall i :: 0 <= i < |xs| ==> if literal then FitsValue(xs[i]) else FitsName(xs[i])
  {
    assert forall i :: 0 <= i < |xs| ==> IsItem(ItemToken(xs[i], literal), literal);
  }

  /** What the front end hands to the engine meets the engine's demands. */
  lemma QueriesAreWellFormed(sql: string)
    ensures QueryFits(QueryOf(sql))
    ensures QueryOf(sql).Parsed? && QueryOf(sql).stmt.Insert? ==> NoBreaksInAny(QueryOf(sql).stmt.insert.columns)
  {
    if QueryOf(sql).Parsed? {
      var stmt := QueryOf(sql).stmt;
      ParsedIsPrintable(sql);
      hide QueryOf, IsIdentifier;
      match stmt
      case Insert(s) =>
        FitsItemsFit(s.columns, false);
        FitsItemsFit(s.values, true);
        ColumnsHaveNoBreaks(s.columns);
      case Select(s) => FitsItemsFit(s.columns, false);
      case Delete(_) =>
    }
  }

  // ---- what can be written, character by character ---------------------------------------------

  predicate IsWordLetter(c: char) {
    c in SMALL || c in CAPITAL || c in "0123456789" || c == '_'
  }

  /** A star, or at most 63 letters, digits and underscores that do not start with a digit
      and are no keyword in any letter case. */
  ghost predicate IsNameText(name: string) {
    || name == "*"
    || (&& 1 <= |name| <= 63 && name[0] !in "0123456789"
        && (forall i :: 0 <= i < |name| ==> IsWordLetter(name[i]))
        && !Alike(name, "INSERT") && !Alike(name, "SELECT") && !Alike(name, "DELETE") && !Alike(name, "INTO")
        && !Alike(name, "FROM") && !Alike(name, "WHERE") && !Alike(name, "VALUES"))
  }

  ghost predicate AreNameTexts(names: seq<string>) {
    |names| <= 32 && forall i :: 0 <= i < |names| ==> IsNameText(names[i])
  }

  ghost predicate IsConditionText(where: Option<WhereClause>) {
    where.Some? ==>
      && IsNameText(where.value.column) && |where.value.value| <= 255
      && where.value.op in ["=", "!=", "<", "<=", ">", ">=", "!"]
  }

  /** The statements that some text stands for. */
  ghost predicate CanBeWritten(stmt: Statement) {
    match stmt
    case Insert(s) =>
      && IsNameText(s.table) && AreNameTexts(s.columns) && 1 <= |s.columns| == |s.values|
      && forall i :: 0 <= i < |s.values| ==> |s.values[i]| <= 255
    case Select(s) =>
      IsNameText(s.table) && AreNameTexts(s.columns) && (s.columns != [] ==> s.columns[0] != "*")
        && IsConditionText(s.where)
    case Delete(s) => IsNameText(s.table) && IsConditionText(s.where)
  }

  lemma NameTextExactly(name: string)
    ensures IsNameText(name) <==> IsIdentifier(name) && FitsName(name)
  {
    hide Alike, IsKeyword, IsDigit, IsWordChar;
    KeywordsAre(name);
    forall i | 0 <= i < |name| ensures IsWordLetter(name[i]) <==> IsWordChar(name[i]) {
      LettersAre(name[i]);
    }
    if name != "" {
      DigitsAre(name[0]);
    }
  }

  lemma NameTextsExactly(names: seq<string>)
    ensures AreNameTexts(names) <==> AreIdentifiers(names) && FitsItems(names, false)
  {
    hide IsNameText, IsIdentifier;
    forall i | 0 <= i < |names| ensures IsNameText(names[i]) <==> IsIdentifier(names[i]) && FitsName(names[i]) {
      NameTextExactly(names[i]);
    }
    assert forall i :: 0 <= i < |names| ==> (IsItem(ItemToken(names[i], false), false) <==> FitsName(names[i]));
  }

  lemma OperatorsAre(op: string)
    ensures IsOperator(op) <==> op in ["=", "!=", "<", "<=", ">", ">=", "!"]
    ensures IsOperator(op) ==> |op| < MAX_OPERATOR_LEN
  {
    var ops := ["=", "!=", "<", "<=", ">", ">=", "!"];
    assert ops[0] == "=" && ops[1] == "!=" && ops[2] == "<" && ops[3] == "<=" && ops[4] == ">" && ops[5] == ">="
      && ops[6] == "!";
  }

  /** The printable statements, character by character. */
  lemma PrintableExactly(stmt: Statement)
    ensures Printable(stmt) <==> CanBeWritten(stmt)
  {
    hide IsNameText, IsIdentifier, AreNameTexts, AreIdentifiers, FitsItems;
    match stmt
    case Insert(s) =>
      NameTextExactly(s.table);
      NameTextsExactly(s.columns);
      ValuesFitExactly(s.values);
      if AreNameTexts(s.columns) {
        NamesAreFew(s.columns);
      }
    case Select(s) =>
      NameTextExactly(s.table);
      NameTextsExactly(s.columns);
      if s.where.Some? {
        NameTextExactly(s.where.value.column);
        OperatorsAre(s.where.value.op);
      }
    case Delete(s) =>
      NameTextExactly(s.table);
      if s.where.Some? {
        NameTextExactly(s.where.value.column);
        OperatorsAre(s.where.value.op);
      }
  }

  lemma ValuesFitExactly(values: seq<string>)
    ensures FitsItems(values, true) <==> |values| <= 32 && forall i :: 0 <= i < |values| ==> |values[i]| <= 255
  {
    assert forall i :: 0 <= i < |values| ==> (IsItem(ItemToken(values[i], true), true) <==> |values[i]| <= 255);
  }

  lemma NamesAreFew(names: seq<string>)
    requires AreNameTexts(names)
    ensures |names| <= 32
  {
  }

  /** Which statements some text stands for, character by character. */
  lemma WritableTexts(stmt: Statement)
    ensures (exists sql :: QueryOf(sql) == Query.Parsed(stmt)) <==> CanBeWritten(stmt)
  {
    hide QueryOf, Printable, CanBeWritten;
    WritableExactly(stmt);
    PrintableExactly(stmt);
  }

  /** Why a text is no statement: it is white, it does not lex, or its tokens are no form
      of a statement. */
  lemma RejectedExactly(sql: string)
    ensures var white := forall k :: 0 <= k < |sql| ==> White(sql[k]);
            QueryOf(sql)
            == if white then Rejected("SQL statement is empty.")
               else if Tokenize(sql).None? then Rejected("Failed to tokenize SQL statement.")
               else if ParseTokens(Tokenize(sql).value).None? then Rejected("Failed to parse SQL statement.")
               else Query.Parsed(ParseTokens(Tokenize(sql).value).value)
  {
    hide White, Tokenize, Trimmed, ParseTokens;
    EmptyExactly(sql);
    TokenizeTrimmed(sql);
    TrimmedIsTrimmed(sql);
  }
}
