/** The hypotheses of the refinement are the exact ones: what a client sees when a row
    does not survive the trip through its file, and when a table is spelled in two ways. */
module Hypotheses {
  import opened Text
  import opened Csv
  import opened Statements
  import opened Storage
  import opened EngineModel
  import opened WriteThrough
  import opened EngineInvariant
  import opened Naive
  import opened Durability

  /** SELECT of everything in a table. */
  function All(table: string): (stmt: Statement) {
    Select(SelectStatement(table, [], None))
  }

  lemma SelectAllIs(columns: seq<string>, rows: seq<seq<string>>, table: string)
    requires Rectangular(rows, |columns|)
    ensures SelectFrom(columns, rows, All(table).select) == Selected(columns, rows, false)
  {
    ProjectAll(columns);
    var answer := AllProjected(rows, |columns|, UpTo(|columns|));
    forall i | 0 <= i < |rows| ensures answer[i] == rows[i] {
      ProjectAll(rows[i]);
    }
    assert answer == rows;
  }

  // ---- switching to another table and back ------------------------------------------------

  /** The answer of a SELECT while the table is loaded. */
  lemma AnswerFromMemory(s: State, table: string)
    requires EngineOk(s) && s.runtime.loaded && s.runtime.name == table != ""
    ensures ExecuteSelect(s, All(table).select) == (s, Selected(s.runtime.columns, s.runtime.rows, false))
  {
    SelectAllIs(s.runtime.columns, s.runtime.rows, table);
    hide SelectFrom;
  }

  /** A SELECT on another table drops the loaded one and touches no file. */
  lemma SwitchDropsTable(s: State, names: set<string>, table: string, other: string)
    requires EngineOk(s) && OneSpelling(names) && table in names && other in names && other != table
    requires s.runtime.name == table
    ensures var s' := ExecuteSelect(s, All(other).select).0;
            EngineOk(s') && s'.files == s.files && s'.runtime.name == other
  {
    LoadKeepsOk(s, other);
    LoadKeepsName(s, names, other);
    hide Load, SelectFrom;
  }

  /** The answer of a SELECT that has to load the table. */
  lemma AnswerFromFile(s: State, names: set<string>, table: string)
    requires EngineOk(s) && OneSpelling(names) && table in names
    requires s.runtime.name in names && s.runtime.name != table && table in s.files
    ensures ExecuteSelect(s, All(table).select).1
            == var loaded := LoadedTable(s.files[table]);
               if loaded.None? then Failure("Failed to load table from storage.")
               else Selected(loaded.value.columns, loaded.value.rows, false)
  {
    assert Activate(s.runtime, table) == Unloaded(table);
    if LoadedTable(s.files[table]).Some? {
      var loaded := LoadedTable(s.files[table]).value;
      LoadedTableShape(s.files[table]);
      SelectAllIs(loaded.columns, loaded.rows, table);
    }
    hide SelectFrom, LoadedTable, IdsOk, NextIdOf;
  }

  /** After a successful insert the table is the loaded one, and its file is there. */
  lemma InsertLeavesTableLoaded(s: State, insert: InsertStatement, names: set<string>)
    requires EngineOk(s) && (s.runtime.name == "" || s.runtime.name in names)
    requires OneSpelling(names) && Admissible(Insert(insert), names) && Execute(s, Insert(insert)).1.success
    ensures var s' := Execute(s, Insert(insert)).0;
            EngineOk(s') && s'.runtime.loaded && s'.runtime.name == insert.table && insert.table in s'.files
  {
    ExecuteKeepsOk(s, Insert(insert));
    LoadKeepsName(s, names, insert.table);
    hide Load, AfterInsert, CanStart, SchemaMatches;
  }

  /** The answers of one SELECT right away and after a visit to another table. */
  function Twice(s: State, table: string, other: string): (answers: (DbResult, DbResult))
    requires EngineOk(s) && FitsTable(table) && FitsTable(other)
  {
    ExecuteKeepsOk(s, All(other));
    (Execute(s, All(table)).1, Execute(Execute(s, All(other)).0, All(table)).1)
  }

  /** Exactly when a client cannot tell that the table was dropped and loaded again: the
      same SELECT right after a successful insert and after a visit to another table
      answers the same if and only if the row survives. */
  lemma SwitchIsInvisibleExactly(s: State, insert: InsertStatement, other: string, names: set<string>)
    requires Coherent(s, names) && OneSpelling(names) && Admissible(Insert(insert), names)
    requires other in names && FitsTable(other) && other != insert.table && Execute(s, Insert(insert)).1.success
    ensures EngineOk(Execute(s, Insert(insert)).0)
    ensures var (now, later) := Twice(Execute(s, Insert(insert)).0, insert.table, other);
            now == later <==> Survives(DbOf(s.files), Insert(insert))
  {
    CoherentIsOk(s, names);
    InsertLeavesTableLoaded(s, insert, names);
    StatementRefinesExactly(s, Insert(insert), names);
    var s1 := Execute(s, Insert(insert)).0;
    SwitchDropsTable(s1, names, insert.table, other);
    AnswerFromMemory(s1, insert.table);
    AnswerFromFile(ExecuteSelect(s1, All(other).select).0, names, insert.table);
    hide ExecuteInsert, ExecuteSelect, Survives, LoadedTable, DbOf, Answer;
  }

  /** A repeated column with two values: the SELECT that showed both shows the first
      one twice after another table has been active. */
  lemma RepeatedColumnChangesAnswer(s: State, insert: InsertStatement, other: string, names: set<string>)
    requires Coherent(s, names) && OneSpelling(names) && Admissible(Insert(insert), names)
    requires other in names && FitsTable(other) && other != insert.table
    requires insert.table in s.files && Execute(s, Insert(insert)).1.success
    requires NoBreaksInAny(insert.values) && !ValuesAgree(insert)
    ensures EngineOk(Execute(s, Insert(insert)).0)
    ensures var s1, n := Execute(s, Insert(insert)).0, IdGiven(DbOf(s.files), insert);
            && s1.runtime.rows != []
            && var columns, rows := s1.runtime.columns, s1.runtime.rows[..|s1.runtime.rows| - 1];
               Twice(s1, insert.table, other)
               == (Selected(columns, rows + [NewRow(n, insert)], false),
                   Selected(columns, rows + [StoredRow(n, insert)], false))
    ensures var n := IdGiven(DbOf(s.files), insert); StoredRow(n, insert) != NewRow(n, insert)
  {
    hide Coherent, SelectFrom, StoredRow, ValuesAgree, ExecuteInsert, ExecuteSelect, LoadedTable, IdsOk, NextIdOf,
      FirstNamed, NoBreaksInAny, IdGiven, DbOf;
    CoherentIsOk(s, names);
    InsertLeavesTableLoaded(s, insert, names);
    var s1 := Execute(s, Insert(insert)).0;
    SwitchDropsTable(s1, names, insert.table, other);
    AnswerFromMemory(s1, insert.table);
    AnswerFromFile(ExecuteSelect(s1, All(other).select).0, names, insert.table);
    var n := LaterInsertStores(s, insert, names);
    StoredRowIsNewRow(n, insert);
    var rows := s1.runtime.rows[..|s1.runtime.rows| - 1];
    assert rows + [NewRow(n, insert)] == s1.runtime.rows;
  }

  /** An insert into an existing table, in memory and in the file. */
  lemma LaterInsertStores(s: State, insert: InsertStatement, names: set<string>) returns (n: nat)
    requires Coherent(s, names) && OneSpelling(names) && Admissible(Insert(insert), names)
    requires insert.table in s.files && Execute(s, Insert(insert)).1.success && NoBreaksInAny(insert.values)
    ensures var s1 := Execute(s, Insert(insert)).0;
            && |s1.runtime.rows| > 0
            && n == IdGiven(DbOf(s.files), insert)
            && s1.runtime.rows[|s1.runtime.rows| - 1] == NewRow(n, insert)
            && insert.table in s1.files
            && LoadedTable(s1.files[insert.table])
               == Some(TableData(s1.runtime.columns, s1.runtime.rows[..|s1.runtime.rows| - 1] + [StoredRow(n, insert)]))
  {
    LoadShowsView(s, names, insert.table);
    var (ok, r) := Load(Activate(s.runtime, insert.table), s.files, insert.table);
    n := LoadedInsertStores(r, s.files, insert);
    hide InsertRow, Load, LoadedTable, StoredRow;
  }

  lemma LoadedInsertStores(r: Runtime, files: map<string, File>, insert: InsertStatement) returns (n: nat)
    requires Coherent(State(r, files), {r.name}) && r.loaded && r.name == insert.table
    requires FitsInsert(insert) && InsertRow(r, files, insert).0 && NoBreaksInAny(insert.values)
    ensures n == r.nextId
    ensures var s1 := InsertRow(r, files, insert).1;
            && s1.runtime == Runtime(r.name, true, r.columns, r.rows + [NewRow(n, insert)], n + 1)
            && insert.table in s1.files
            && LoadedTable(s1.files[insert.table]) == Some(TableData(r.columns, r.rows + [StoredRow(n, insert)]))
  {
    n := r.nextId;
    var file, table := files[r.name], TableData(r.columns, r.rows);
    StorageAcceptsExactly(file, table, insert);
    ReloadAfterInsertIs(file, table, insert);
    StoredHasNoBreaks(n, insert);
    hide StoredRow, LoadedTable, AfterInsert, SchemaMatches;
  }

  lemma StoredHasNoBreaks(n: nat, insert: InsertStatement)
    requires |insert.values| == |insert.columns| && NoBreaksInAny(insert.values)
    ensures NoBreaksInAny(StoredRow(n, insert))
  {
    var stored := StoredRow(n, insert);
    forall i | 0 <= i < |stored| ensures NoBreaks(stored[i]) {
      if i > 0 {
        assert NoBreaks(insert.values[FirstNamed(insert.columns, insert.columns[i - 1]).value]);
      }
    }
  }

  // ---- two spellings of one name ------------------------------------------------------------

  function Nothing(): (after: State) {
    State(Unloaded(""), map[])
  }

  /** The first statement of all. */
  lemma FirstInsertEver(insert: InsertStatement)
    requires FitsInsert(insert) && CanStart(insert) && RowSurvives(insert, false)
    ensures var (s, result) := ExecuteInsert(Nothing(), insert);
            && result == Inserted(insert.table) && Coherent(s, {insert.table}) && s.files.Keys == {insert.table}
            && s.runtime == Runtime(insert.table, true, ["id"] + insert.columns, [NewRow(1, insert)], 2)
            && TableOk(["id"] + insert.columns, [NewRow(1, insert)])
  {
    NewTableOk(insert);
    StatementRefinesExactly(Nothing(), Insert(insert), {insert.table});
    FirstInsertIs(Unloaded(insert.table), map[], insert);
    hide AfterInsert, InsertRow, CanStart, RowSurvives, TableOk, Answer, Survives, NoBreaksInAny;
  }

  /** The statement INSERT INTO t (a, a) VALUES ('x', 'y'), given twice to an empty
      engine: the second one succeeds and does not survive. */
  lemma RepeatedColumnIsReached()
    ensures var insert := InsertStatement("t", ["a", "a"], ["x", "y"]);
            var s := ExecuteInsert(Nothing(), insert).0;
            && FitsInsert(insert) && Coherent(s, {"t"}) && "t" in s.files
            && ExecuteInsert(s, insert).1 == Inserted("t")
            && !ValuesAgree(insert) && !Survives(DbOf(s.files), Insert(insert))
  {
    var insert := InsertStatement("t", ["a", "a"], ["x", "y"]);
    assert !SameName("a", "id") by { assert |Upper("a")| == 1 && |Upper("id")| == 2; }
    assert NoBreaks("a") && NoBreaks("x") && NoBreaks("y");
    FirstInsertEver(insert);
    assert FirstNamed(insert.columns, "a") == Some(0);
    assert insert.values[FirstNamed(insert.columns, insert.columns[1]).value] == "x";
    var s := ExecuteInsert(Nothing(), insert).0;
    assert FirstNamed(insert.columns, "id").None?;
    assert SchemaMatches(s.runtime.columns, insert);
    SecondInsert(s, insert);
  }

  lemma SecondInsert(s: State, insert: InsertStatement)
    requires Coherent(s, {insert.table}) && FitsInsert(insert) && s.runtime.loaded && s.runtime.name == insert.table
    requires SchemaMatches(s.runtime.columns, insert) && FirstNamed(insert.columns, "id").None?
      && s.runtime.nextId <= INT_MAX
    requires !ValuesAgree(insert)
    ensures ExecuteInsert(s, insert).1 == Inserted(insert.table) && !Survives(DbOf(s.files), Insert(insert))
  {
    AcceptedInsertRefines(s.runtime, s.files, {insert.table}, insert);
    AcceptedViewIs(s.runtime, s.files, insert);
    hide InsertRow, InsertInto, SchemaMatches, ValuesAgree;
  }

  /** A table is filled under one spelling and read under another: the rows are shown
      as long as the table stays loaded, and then no more. */
  lemma TwoSpellingsShowTheCache(insert: InsertStatement, b: string, other: string)
    requires FitsInsert(insert) && CanStart(insert) && RowSurvives(insert, false)
    requires FitsTable(b) && SameName(b, insert.table) && b != insert.table
    requires FitsTable(other) && !SameName(other, insert.table)
    ensures var (s, result) := ExecuteInsert(Nothing(), insert);
            && result == Inserted(insert.table) && RuntimeOk(s.runtime)
            && ExecuteSelect(s, All(b).select).1 == Selected(["id"] + insert.columns, [NewRow(1, insert)], false)
            && Answer(DbOf(s.files), All(b)).1 == NotFound(b)
            && var away := ExecuteSelect(s, All(other).select).0;
               RuntimeOk(away.runtime) && ExecuteSelect(away, All(b).select).1 == NotFound(b)
  {
    FirstInsertEver(insert);
    SelectAllIs(["id"] + insert.columns, [NewRow(1, insert)], b);
    hide ExecuteInsert, SelectFrom, CanStart, RowSurvives, IdsOk, NextIdOf, NoBreaksInAny;
  }

  predicate Refines(s: State, stmt: Statement, names: set<string>)
    requires Coherent(s, names) && Admissible(stmt, names)
  {
    var (s', result) := Execute(s, stmt);
    Coherent(s', names) && Answer(DbOf(s.files), stmt) == (DbOf(s'.files), result)
  }

  ghost predicate AlwaysRefines(names: set<string>) {
    forall s, stmt ::
      Coherent(s, names) && Admissible(stmt, names) && Survives(DbOf(s.files), stmt) ==> Refines(s, stmt, names)
  }

  /** No two names that can name a table agree up to case. */
  predicate SpelledOnce(names: set<string>) {
    forall a, b :: a in names && b in names && FitsTable(a) && FitsTable(b) && SameName(a, b) ==> a == b
  }

  function Usable(names: set<string>): (members: set<string>) {
    set name | name in names && FitsTable(name)
  }

  lemma SpelledOnceRefines(s: State, stmt: Statement, names: set<string>)
    requires SpelledOnce(names) && Coherent(s, names) && Admissible(stmt, names) && Survives(DbOf(s.files), stmt)
    ensures Refines(s, stmt, names)
  {
    var usable := Usable(names);
    hide DbOf, Survives, IdsOk, NextIdOf, LoadedTable, ExecuteInsert, ExecuteSelect, Answer;
    if s.runtime.name == "" || s.runtime.name in usable {
      StatementRefines(s, stmt, usable);
    } else if !stmt.Delete? {
      var t := State(Unloaded(""), s.files);
      OtherNameIsDropped(s, stmt);
      StatementRefines(t, stmt, usable) by { assert RuntimeOk(t.runtime); }
    } else {
      DeleteRefines(s, stmt);
    }
  }

  lemma OtherNameIsDropped(s: State, stmt: Statement)
    requires RuntimeOk(s.runtime) && Fits(stmt) && !stmt.Delete? && s.runtime.name != "" && !FitsTable(s.runtime.name)
    ensures RuntimeOk(Unloaded("")) && Execute(s, stmt) == Execute(State(Unloaded(""), s.files), stmt)
  {
    assert !SameName(s.runtime.name, TableOf(stmt)) by { LongNamesDiffer(s.runtime.name, TableOf(stmt)); }
    hide InsertRow, SelectFrom, Load;
  }

  lemma LongNamesDiffer(a: string, b: string)
    requires a != "" && !FitsTable(a) && FitsTable(b)
    ensures !SameName(a, b)
  {
    assert |Upper(a)| == |a| && |Upper(b)| == |b|;
  }

  lemma DeleteRefines(s: State, stmt: Statement)
    requires RuntimeOk(s.runtime) && Fits(stmt) && stmt.Delete?
    ensures Execute(s, stmt).0 == s && Answer(DbOf(s.files), stmt) == (DbOf(s.files), Execute(s, stmt).1)
  {
  }

  lemma TwoSpellingsDoNotRefine(names: set<string>, a: string, b: string)
    requires a in names && b in names && FitsTable(a) && FitsTable(b) && SameName(a, b) && a != b
    ensures !AlwaysRefines(names)
  {
    var insert := InsertStatement(a, ["x"], ["v"]);
    assert SameName(b, a);
    assert !SameName("x", "id") by { assert Upper("x")[0] == 'X' && Upper("id")[0] == 'I'; }
    assert NoBreaks("x") && NoBreaks("v");
    FirstInsertEver(insert);
    var s := ExecuteInsert(Nothing(), insert).0;
    SelectAllIs(["id", "x"], [NewRow(1, insert)], b);
    assert Coherent(s, names) && Admissible(All(b), names) && Survives(DbOf(s.files), All(b));
    assert !Refines(s, All(b), names) by { WrongAnswer(s, b, names); }
  }

  lemma WrongAnswer(s: State, b: string, names: set<string>)
    requires Coherent(s, names) && Admissible(All(b), names) && b !in s.files
    requires s.runtime.loaded && SameName(s.runtime.name, b)
    ensures !Refines(s, All(b), names)
  {
    SelectAllIs(s.runtime.columns, s.runtime.rows, b);
    hide SelectFrom;
  }

  /** The hypothesis on spelling is exact: every statement on a coherent state refines
      the naive database if and only if no two usable names agree up to case. */
  lemma SpellingIsNeededExactly(names: set<string>)
    ensures AlwaysRefines(names) <==> SpelledOnce(names)
  {
    hide Coherent, Survives, Refines, DbOf, SameName, FitsTable;
    if SpelledOnce(names) {
      forall s, stmt | Coherent(s, names) && Admissible(stmt, names) && Survives(DbOf(s.files), stmt)
        ensures Refines(s, stmt, names)
      {
        SpelledOnceRefines(s, stmt, names);
      }
    } else {
      var a, b :| a in names && b in names && FitsTable(a) && FitsTable(b) && SameName(a, b) && a != b;
      TwoSpellingsDoNotRefine(names, a, b);
    }
  }
}
