/** The engine against a naive database: a map from table names to tables, where an
    INSERT adds a row with id max + 1 and a SELECT filters. The naive database has no
    cache, no files, no CSV and no index. */
module Naive {
  import opened Text
  import opened Csv
  import opened Statements
  import opened Storage
  import opened EngineModel
  import opened WriteThrough
  import opened EngineInvariant

  lemma LoadedTableShape(file: File)
    requires LoadedTable(file).Some?
    ensures var table := LoadedTable(file).value;
            && Rectangular(table.rows, |table.columns|) && 0 < |table.columns| <= MAX_COLUMNS
            && NextIdOf(table.rows, FirstNamed(table.columns, "id").value, 1) >= 1
  {
    NextIdPositive(LoadedTable(file).value);
  }

  // ---- the naive database ---------------------------------------------------------

  datatype AnyView = Broken | Table(columns: seq<string>, rows: seq<seq<string>>)

  /** A table with an id column in which every row has an id of its own. */
  predicate TableOk(columns: seq<string>, rows: seq<seq<string>>) {
    && 0 < |columns| <= MAX_COLUMNS && Rectangular(rows, |columns|)
    && FirstNamed(columns, "id").Some?
    && IdsOk(rows, FirstNamed(columns, "id").value)
  }

  type View = v: AnyView | v.Table? ==> TableOk(v.columns, v.rows) witness Broken

  type Db = map<string, View>

  /** The table a file holds, or that it cannot be used. */
  function ViewOf(file: File): (view: View) {
    var table := LoadedTable(file);
    if table.None? then Broken
    else
      LoadedTableShape(file);
      Table(table.value.columns, table.value.rows)
  }

  /** What the files mean. */
  function DbOf(files: map<string, File>): (db': Db) {
    map name | name in files :: ViewOf(files[name])
  }

  /** One more than every id in use, and no more than needed. */
  predicate IsNextId(rows: seq<seq<string>>, idIndex: nat, next: int)
    requires AllIntegerIds(rows, idIndex)
  {
    && next >= 1
    && (forall i :: 0 <= i < |rows| ==> ParseInteger(rows[i][idIndex]) < next)
    && (next == 1 || exists i :: 0 <= i < |rows| && ParseInteger(rows[i][idIndex]) == next - 1)
  }

  lemma {:induction false} NextIdIsMaxPlusOne(rows: seq<seq<string>>, idIndex: nat, next: int)
    requires AllIntegerIds(rows, idIndex)
    ensures NextIdOf(rows, idIndex, next) == next
            || exists i :: 0 <= i < |rows| && ParseInteger(rows[i][idIndex]) == NextIdOf(rows, idIndex, next) - 1
    decreases |rows|
  {
    if rows != [] {
      var id := ParseInteger(rows[0][idIndex]);
      var next' := if id >= next then id + 1 else next;
      NextIdIsMaxPlusOne(rows[1..], idIndex, next');
      if NextIdOf(rows[1..], idIndex, next') != next' {
        var i :| 0 <= i < |rows[1..]| && ParseInteger(rows[1..][i][idIndex]) == NextIdOf(rows, idIndex, next) - 1;
        assert rows[1..][i] == rows[i + 1];
      }
    }
  }

  /** The id an insert assigns is exactly max + 1, or 1 in an empty table. */
  lemma NextIdOfIsNextId(rows: seq<seq<string>>, idIndex: nat)
    requires AllIntegerIds(rows, idIndex)
    ensures IsNextId(rows, idIndex, NextIdOf(rows, idIndex, 1))
    ensures forall n :: IsNextId(rows, idIndex, n) ==> n == NextIdOf(rows, idIndex, 1)
  {
    NextIdAtLeast(rows, idIndex, 1);
    NextIdIsMaxPlusOne(rows, idIndex, 1);
  }

  lemma NewTableOk(stmt: InsertStatement)
    requires CanStart(stmt) && |stmt.values| == |stmt.columns|
    ensures TableOk(["id"] + stmt.columns, [NewRow(1, stmt)])
  {
    var header := ["id"] + stmt.columns;
    assert SameName(header[0], "id");
    assert FirstNamed(header, "id") == Some(0);
    NewRowKeepsIds([], NewRow(1, stmt));
    assert [] + [NewRow(1, stmt)] == [NewRow(1, stmt)];
  }

  lemma LongerTableOk(columns: seq<string>, rows: seq<seq<string>>, stmt: InsertStatement)
    requires TableOk(columns, rows) && SchemaMatches(columns, stmt) && |stmt.values| == |stmt.columns|
    requires FirstNamed(stmt.columns, "id").None?
    ensures FirstNamed(columns, "id") == Some(0) && NextIdOf(rows, 0, 1) >= 1
    ensures NextIdOf(rows, 0, 1) <= INT_MAX ==> TableOk(columns, rows + [NewRow(NextIdOf(rows, 0, 1), stmt)])
  {
    IdIsFirst(columns, stmt);
    NextIdAtLeast(rows, 0, 1);
    if NextIdOf(rows, 0, 1) <= INT_MAX {
      NewRowKeepsIds(rows, NewRow(NextIdOf(rows, 0, 1), stmt));
    }
  }

  /** The table after an insert, if the insert is allowed: the statement names every
      column but the automatic id, and the id still fits. */
  function InsertInto(view: Option<View>, stmt: InsertStatement): (found: Option<View>)
    requires |stmt.values| == |stmt.columns|
  {
    match view
    case None =>
      if CanStart(stmt) then NewTableOk(stmt); Some(Table(["id"] + stmt.columns, [NewRow(1, stmt)])) else None
    case Some(Broken) => None
    case Some(Table(columns, rows)) =>
      if !SchemaMatches(columns, stmt) || FirstNamed(stmt.columns, "id").Some? then None
      else
        LongerTableOk(columns, rows, stmt);
        var next := NextIdOf(rows, 0, 1);
        if next > INT_MAX then None else Some(Table(columns, rows + [NewRow(next, stmt)]))
  }

  function Lookup(db: Db, name: string): (found: Option<View>) {
    if name in db then Some(db[name]) else None
  }

  function Answer(db: Db, stmt: Statement): (outcome: (Db, DbResult))
    requires Fits(stmt)
  {
    match stmt
    case Insert(insert) =>
      var after := InsertInto(Lookup(db, insert.table), insert);
      if Lookup(db, insert.table) == Some(Broken) then (db, Failure("Failed to load table from storage."))
      else if after.None? then (db, Failure("Failed to insert row into " + insert.table + "."))
      else (db[insert.table := after.value], Inserted(insert.table))
    case Select(select) =>
      (db, match Lookup(db, select.table)
           case None => NotFound(select.table)
           case Some(Broken) => Failure("Failed to load table from storage.")
           case Some(Table(columns, rows)) => SelectFrom(columns, rows, select))
    case Delete(_) => (db, Failure("DELETE is not supported in memory runtime mode."))
  }

  // ---- hypotheses -------------------------------------------------------------------

  /** The row of an insert that is allowed survives the trip through the file: no line
      break in what is written, and a repeated column of an existing table, which storage
      looks up by name, carries one value. */
  predicate RowSurvives(stmt: InsertStatement, known: bool)
    requires |stmt.values| == |stmt.columns|
  {
    NoBreaksInAny(stmt.values) && if known then ValuesAgree(stmt) else NoBreaksInAny(stmt.columns)
  }

  /** The statement is no insert, or is refused, or its row survives. */
  predicate Survives(db: Db, stmt: Statement)
    requires Fits(stmt)
  {
    stmt.Insert? && InsertInto(Lookup(db, stmt.insert.table), stmt.insert).Some? ==>
      RowSurvives(stmt.insert, stmt.insert.table in db)
  }

  /** The statements the refinement is about. */
  predicate Admissible(stmt: Statement, names: set<string>) {
    Fits(stmt) && TableOf(stmt) in names
  }

  predicate AllFit(stmts: seq<Statement>) {
    forall i :: 0 <= i < |stmts| ==> Fits(stmts[i])
  }

  /** Every statement of the run survives where it stands. */
  predicate SafeRun(db: Db, stmts: seq<Statement>)
    requires AllFit(stmts)
    decreases |stmts|
  {
    stmts == [] || (Survives(db, stmts[0]) && SafeRun(Answer(db, stmts[0]).0, stmts[1..]))
  }

  /** No insert, or one that no table can take, or one without line breaks and without
      conflicting values. */
  predicate Plain(stmt: Statement)
    requires Fits(stmt)
  {
    stmt.Insert? && CanStart(stmt.insert) ==>
      && NoBreaksInAny(stmt.insert.columns) && NoBreaksInAny(stmt.insert.values)
      && ValuesAgree(stmt.insert)
  }

  /** Only a statement that could define its table can go into an existing one. */
  lemma AcceptedCanStart(view: Option<View>, stmt: InsertStatement)
    requires |stmt.values| == |stmt.columns| && InsertInto(view, stmt).Some?
    ensures CanStart(stmt)
  {
    hide NextIdOf, IdsOk;
  }

  /** The empty table that a statement fits. */
  lemma EmptyTableTakes(stmt: InsertStatement)
    requires CanStart(stmt) && |stmt.values| == |stmt.columns|
    ensures TableOk(["id"] + stmt.columns, [])
    ensures InsertInto(Some(Table(["id"] + stmt.columns, [])), stmt).Some?
  {
    var header := ["id"] + stmt.columns;
    assert SameName(header[0], "id");
    assert FirstNamed(header, "id") == Some(0);
  }

  /** A statement survives in every database if and only if it is plain: a condition that
      does not depend on what came before. */
  lemma PlainExactly(stmt: Statement)
    requires Fits(stmt)
    ensures Plain(stmt) <==> forall db: Db :: Survives(db, stmt)
  {
    hide InsertInto, CanStart, NoBreaksInAny, ValuesAgree, TableOk;
    if stmt.Insert? {
      var insert := stmt.insert;
      if Plain(stmt) {
        forall db: Db | InsertInto(Lookup(db, insert.table), insert).Some? ensures Survives(db, stmt) {
          AcceptedCanStart(Lookup(db, insert.table), insert);
        }
      } else {
        EmptyTableTakes(insert);
        NewTableIsTaken(insert);
        var nothing: Db, empty: Db := map[], map[insert.table := Table(["id"] + insert.columns, [])];
        assert Lookup(nothing, insert.table) == None;
        assert !Survives(nothing, stmt) || !Survives(empty, stmt);
      }
    }
  }

  lemma NewTableIsTaken(stmt: InsertStatement)
    requires CanStart(stmt) && |stmt.values| == |stmt.columns|
    ensures InsertInto(None, stmt).Some?
  {
    NewTableOk(stmt);
  }

  lemma {:induction false} PlainRunsAreSafe(db: Db, stmts: seq<Statement>)
    requires AllFit(stmts) && forall i :: 0 <= i < |stmts| ==> Plain(stmts[i])
    ensures SafeRun(db, stmts)
    decreases |stmts|
  {
    hide Fits, Answer, Plain, Survives;
    if stmts != [] {
      PlainExactly(stmts[0]);
      PlainRunsAreSafe(Answer(db, stmts[0]).0, stmts[1..]);
    }
  }

  // ---- the cache invariant -------------------------------------------------------------

  /** The loaded table, if any, is what its file says. */
  predicate Coherent(s: State, names: set<string>) {
    && RuntimeOk(s.runtime)
    && (s.runtime.name == "" || s.runtime.name in names)
    && (s.runtime.loaded ==>
          && s.runtime.name in names && s.runtime.name in s.files
          && LoadedTable(s.files[s.runtime.name]) == Some(TableData(s.runtime.columns, s.runtime.rows)))
  }

  /** After activation and load, the runtime shows exactly the table's view. */
  lemma LoadShowsView(s: State, names: set<string>, name: string)
    requires Coherent(s, names) && OneSpelling(names) && name in names
    ensures var (ok, r) := Load(Activate(s.runtime, name), s.files, name);
            && Coherent(State(r, s.files), names) && r.name == name
            && (ok <==> Lookup(DbOf(s.files), name) != Some(Broken))
            && (ok && r.loaded ==> Lookup(DbOf(s.files), name) == Some(Table(r.columns, r.rows)))
            && (ok && !r.loaded ==> Lookup(DbOf(s.files), name) == None && name !in s.files)
  {
    var active := Activate(s.runtime, name);
    assert active.name == name && Coherent(State(active, s.files), names);
    LoadKeepsRuntimeOk(active, s.files, name);
    if !active.loaded && name in s.files && LoadedTable(s.files[name]).Some? {
      LoadedTableShape(s.files[name]);
    }
  }

  // ---- one statement ----------------------------------------------------------------------

  /** What an insert should come to: it succeeds exactly when the naive database allows
      it, and memory, file and naive database agree afterwards exactly when the row
      survives. */
  predicate InsertAgrees(r: Runtime, files: map<string, File>, names: set<string>, stmt: InsertStatement)
    requires |stmt.values| == |stmt.columns| && r.nextId >= 0
  {
    var (ok, s') := InsertRow(r, files, stmt);
    var after := InsertInto(Lookup(DbOf(files), stmt.table), stmt);
    var safe := after.Some? ==> RowSurvives(stmt, stmt.table in files);
    && (ok <==> after.Some?)
    && (Coherent(s', names) <==> safe)
    && (DbOf(s'.files) == (if ok then DbOf(files)[stmt.table := after.value] else DbOf(files)) <==> safe)
  }

  lemma FirstInsertRefines(r: Runtime, files: map<string, File>, names: set<string>, stmt: InsertStatement)
    requires Coherent(State(r, files), names) && r.name == stmt.table && stmt.table in names
    requires FitsInsert(stmt) && !r.loaded && stmt.table !in files
    ensures InsertAgrees(r, files, names, stmt)
  {
    if CanStart(stmt) {
      FirstInsertIs(r, files, stmt);
      FirstRuntimeOk(r.name, stmt);
      ReloadAfterFirstInsertExactly(stmt);
      NewTableOk(stmt);
      hide AfterInsert, LoadedTable, CanStart, IdsOk, RowSurvives, InsertRow, RuntimeOk, TableOk, FitsInsert;
      var header, file := ["id"] + stmt.columns, AfterInsert([], stmt).value;
      StoredViewDecides(files, stmt.table, file, TableData(header, [NewRow(1, stmt)]));
      FirstDecides(stmt);
    }
  }

  lemma FirstDecides(stmt: InsertStatement)
    requires |stmt.values| == |stmt.columns|
    ensures RowSurvives(stmt, false) <==> NoBreaksInAny(stmt.columns) && NoBreaksInAny(stmt.values)
  {
    hide NoBreaksInAny;
  }

  /** The stored file means the table in memory exactly when it loads as that table. */
  lemma StoredViewDecides(files: map<string, File>, name: string, file: File, table: TableData)
    requires TableOk(table.columns, table.rows)
    ensures DbOf(files[name := file]) == DbOf(files)[name := Table(table.columns, table.rows)]
            <==> LoadedTable(file) == Some(table)
  {
    var db, db' := DbOf(files)[name := Table(table.columns, table.rows)], DbOf(files[name := file]);
    assert db'[name] == ViewOf(file);
    if LoadedTable(file).Some? {
      LoadedTableShape(file);
    }
    hide LoadedTable, TableOk;
  }

  /** The schema check or the id range refuses the row: nothing changes. */
  lemma RefusedInsertRefines(r: Runtime, files: map<string, File>, stmt: InsertStatement)
    requires Coherent(State(r, files), {r.name}) && r.name == stmt.table
    requires FitsInsert(stmt) && r.loaded && (!SchemaMatches(r.columns, stmt) || r.nextId > INT_MAX)
    ensures InsertRow(r, files, stmt) == (false, State(r, files))
    ensures InsertInto(Lookup(DbOf(files), stmt.table), stmt) == None
  {
    if SchemaMatches(r.columns, stmt) && FirstNamed(stmt.columns, "id").None? {
      IdIsFirst(r.columns, stmt);
    }
  }

  /** The statement names an id column: storage refuses it, and the runtime reloads
      the table as it was. */
  lemma ExplicitIdRefines(r: Runtime, files: map<string, File>, stmt: InsertStatement)
    requires Coherent(State(r, files), {r.name}) && r.name == stmt.table
    requires FitsInsert(stmt) && r.loaded && SchemaMatches(r.columns, stmt) && r.nextId <= INT_MAX
    requires FirstNamed(stmt.columns, "id").Some?
    ensures InsertRow(r, files, stmt) == (false, State(r, files))
    ensures InsertInto(Lookup(DbOf(files), stmt.table), stmt) == None
  {
    StorageAcceptsExactly(files[r.name], TableData(r.columns, r.rows), stmt);
    assert files[r.name := files[r.name]] == files;
  }

  lemma AcceptedInsertIs(r: Runtime, files: map<string, File>, stmt: InsertStatement)
    requires FitsInsert(stmt) && r.loaded && SchemaMatches(r.columns, stmt) && 0 <= r.nextId <= INT_MAX
    requires r.name in files && AfterInsert(files[r.name], stmt).Some?
    ensures InsertRow(r, files, stmt)
            == (true, State(Runtime(r.name, true, r.columns, r.rows + [NewRow(r.nextId, stmt)], r.nextId + 1),
                            files[r.name := AfterInsert(files[r.name], stmt).value]))
  {
    hide AfterInsert, SchemaMatches;
  }

  lemma AcceptedInsertRefines(r: Runtime, files: map<string, File>, names: set<string>, stmt: InsertStatement)
    requires Coherent(State(r, files), names) && r.name == stmt.table && stmt.table in names
    requires FitsInsert(stmt) && r.loaded && SchemaMatches(r.columns, stmt) && r.nextId <= INT_MAX
    requires FirstNamed(stmt.columns, "id").None?
    ensures InsertAgrees(r, files, names, stmt)
  {
    hide AfterInsert, LoadedTable, IdsOk, NextIdOf, AllIntegerIds, InsertRow, FirstNamed, NoBreaksInAny, ValuesAgree;
    var file := files[r.name];
    StorageAcceptsExactly(file, TableData(r.columns, r.rows), stmt);
    ReloadAfterInsertExactly(file, TableData(r.columns, r.rows), stmt);
    LongerTableOk(r.columns, r.rows, stmt);
    var rows, file' := r.rows + [NewRow(r.nextId, stmt)], AfterInsert(file, stmt).value;
    AcceptedInsertIs(r, files, stmt);
    hide SchemaMatches;
    StoredViewDecides(files, stmt.table, file', TableData(r.columns, rows));
    AcceptedViewIs(r, files, stmt);
  }

  lemma AcceptedViewIs(r: Runtime, files: map<string, File>, stmt: InsertStatement)
    requires Coherent(State(r, files), {r.name}) && r.name == stmt.table
    requires FitsInsert(stmt) && r.loaded && SchemaMatches(r.columns, stmt) && r.nextId <= INT_MAX
    requires FirstNamed(stmt.columns, "id").None?
    ensures InsertInto(Lookup(DbOf(files), stmt.table), stmt)
      == Some(Table(r.columns, r.rows + [NewRow(r.nextId, stmt)]))
  {
    IdIsFirst(r.columns, stmt);
    LongerTableOk(r.columns, r.rows, stmt);
    hide AfterInsert, SchemaMatches;
  }

  /** The insert itself, on the loaded runtime. */
  lemma InsertRowRefines(r: Runtime, files: map<string, File>, names: set<string>, stmt: InsertStatement)
    requires Coherent(State(r, files), names) && r.name == stmt.table && stmt.table in names
    requires FitsInsert(stmt) && (r.loaded <==> stmt.table in files)
    ensures InsertAgrees(r, files, names, stmt)
  {
    if !r.loaded {
      FirstInsertRefines(r, files, names, stmt);
    } else if !SchemaMatches(r.columns, stmt) || r.nextId > INT_MAX {
      RefusedInsertRefines(r, files, stmt);
    } else if FirstNamed(stmt.columns, "id").Some? {
      ExplicitIdRefines(r, files, stmt);
    } else {
      AcceptedInsertRefines(r, files, names, stmt);
    }
    hide InsertRow, InsertInto, SchemaMatches, DbOf, RuntimeOk, LoadedTable;
  }

  /** One statement, exactly: its answer is always the naive database's, and memory,
      files and naive database agree afterwards if and only if the statement survives. */
  lemma StatementRefinesExactly(s: State, stmt: Statement, names: set<string>)
    requires Coherent(s, names) && OneSpelling(names) && Admissible(stmt, names)
    ensures var (s', result) := Execute(s, stmt);
            && Answer(DbOf(s.files), stmt).1 == result
            && (Coherent(s', names) <==> Survives(DbOf(s.files), stmt))
            && (Answer(DbOf(s.files), stmt).0 == DbOf(s'.files) <==> Survives(DbOf(s.files), stmt))
  {
    match stmt
    case Insert(insert) =>
      LoadShowsView(s, names, insert.table);
      var (ok, r) := Load(Activate(s.runtime, insert.table), s.files, insert.table);
      if ok {
        InsertRowRefines(r, s.files, names, insert);
      }
      hide InsertRow, InsertInto, Load, Coherent, RowSurvives;
    case Select(select) =>
      LoadShowsView(s, names, select.table);
    case Delete(_) =>
  }

  /** One statement that survives: same answer as the naive database, and the cache
      stays invisible. */
  lemma StatementRefines(s: State, stmt: Statement, names: set<string>)
    requires Coherent(s, names) && OneSpelling(names) && Admissible(stmt, names) && Survives(DbOf(s.files), stmt)
    ensures var (s', result) := Execute(s, stmt);
            && Coherent(s', names)
            && Answer(DbOf(s.files), stmt) == (DbOf(s'.files), result)
  {
    StatementRefinesExactly(s, stmt, names);
    hide Execute, Answer, Coherent, Survives, DbOf;
  }

  lemma CoherentIsOk(s: State, names: set<string>)
    requires Coherent(s, names)
    ensures EngineOk(s) && HeaderOk(s, names)
  {
  }

  // ---- runs ----------------------------------------------------------------------------------

  predicate AllAdmissible(stmts: seq<Statement>, names: set<string>) {
    forall i :: 0 <= i < |stmts| ==> Admissible(stmts[i], names)
  }

  /** The engine's run, of any statements that fit its buffers. */
  function Run(s: State, stmts: seq<Statement>): (r: (State, seq<DbResult>))
    requires EngineOk(s) && AllFit(stmts)
    ensures EngineOk(r.0)
    decreases |stmts|
  {
    if stmts == [] then (s, [])
    else
      ExecuteKeepsOk(s, stmts[0]);
      var (s', result) := Execute(s, stmts[0]);
      var (final, results) := Run(s', stmts[1..]);
      (final, [result] + results)
  }

  function NaiveRun(db: Db, stmts: seq<Statement>): (r: (Db, seq<DbResult>))
    requires AllFit(stmts)
    decreases |stmts|
  {
    if stmts == [] then (db, [])
    else
      var (db', result) := Answer(db, stmts[0]);
      var (final, results) := NaiveRun(db', stmts[1..]);
      (final, [result] + results)
  }

  /** Any safe run of statements over any tables gets the naive database's answers, and
      the files end up meaning the naive database: the single active table, its
      reloads and its replacements cannot be observed. */
  lemma {:induction false} RunRefines(s: State, stmts: seq<Statement>, names: set<string>)
    requires Coherent(s, names) && OneSpelling(names) && AllAdmissible(stmts, names) && SafeRun(DbOf(s.files), stmts)
    ensures EngineOk(s)
    ensures var (s', results) := Run(s, stmts);
            Coherent(s', names) && NaiveRun(DbOf(s.files), stmts) == (DbOf(s'.files), results)
    decreases |stmts|
  {
    hide Coherent, Execute, Answer, DbOf, EngineOk, Survives;
    CoherentIsOk(s, names);
    if stmts != [] {
      assert Admissible(stmts[0], names);
      ExecuteKeepsOk(s, stmts[0]);
      StatementRefines(s, stmts[0], names);
      RunRefines(Execute(s, stmts[0]).0, stmts[1..], names);
    }
  }

  /** Memory and file agree before, between and after the statements. */
  predicate CoherentThroughout(s: State, stmts: seq<Statement>, names: set<string>)
    requires EngineOk(s) && AllFit(stmts)
    decreases |stmts|
  {
    if stmts == [] then Coherent(s, names)
    else
      ExecuteKeepsOk(s, stmts[0]);
      Coherent(s, names) && CoherentThroughout(Execute(s, stmts[0]).0, stmts[1..], names)
  }

  /** The cache stays in step with the files throughout a run exactly when the run is
      safe, which the naive database alone can tell. */
  lemma {:induction false} SafeRunsExactly(s: State, stmts: seq<Statement>, names: set<string>)
    requires Coherent(s, names) && OneSpelling(names) && AllAdmissible(stmts, names)
    ensures EngineOk(s) && AllFit(stmts)
    ensures CoherentThroughout(s, stmts, names) <==> SafeRun(DbOf(s.files), stmts)
    decreases |stmts|
  {
    hide Coherent, Execute, Answer, DbOf, EngineOk, Survives;
    CoherentIsOk(s, names);
    if stmts != [] {
      assert Admissible(stmts[0], names);
      ExecuteKeepsOk(s, stmts[0]);
      StatementRefinesExactly(s, stmts[0], names);
      if Survives(DbOf(s.files), stmts[0]) {
        SafeRunsExactly(Execute(s, stmts[0]).0, stmts[1..], names);
      } else {
        NotCoherentNow(Execute(s, stmts[0]).0, stmts[1..], names);
      }
    }
  }

  lemma NotCoherentNow(s: State, stmts: seq<Statement>, names: set<string>)
    requires EngineOk(s) && AllFit(stmts) && !Coherent(s, names)
    ensures !CoherentThroughout(s, stmts, names)
  {
  }

  // ---- the hypotheses are needed -----------------------------------------------------------------

  /** The state after the first insert of a row with a line break: in memory the
      table is there, on disk it cannot be read. */
  lemma BrokenFirstInsert(s: State, stmt: InsertStatement)
    requires RuntimeOk(s.runtime) && FitsInsert(stmt) && CanStart(stmt)
    requires stmt.table !in s.files && !SameName(s.runtime.name, stmt.table)
    requires NoBreaksInAny(stmt.columns) && !NoBreaksInAny(stmt.values)
    ensures AfterInsert([], stmt).Some? && LoadTable(AfterInsert([], stmt).value).None?
    ensures var header := ["id"] + stmt.columns;
            ExecuteInsert(s, stmt) == (State(Runtime(stmt.table, true, header, [NewRow(1, stmt)], 2),
                                             s.files[stmt.table := AfterInsert([], stmt).value]),
                                       Inserted(stmt.table))
  {
    FreshInsertAccepted(stmt);
    var header, row := ["id"] + stmt.columns, NewRow(1, stmt);
    var rest := EncodeRow(row) + ['\n'];
    assert EncodeRow(header) + ['\n'] + EncodeRow(row) + ['\n'] == EncodeRow(header) + ['\n'] + rest;
    assert NoBreaks("id") && NoBreaksInAny(header);
    FreshHeaderLoads(header, rest, stmt);
    assert [] + [row] == [row];
    hide LoadTable, AfterInsert, CanStart, NoBreaksInAny;
  }

  /** A line break in a value is accepted, and answered from memory, but once another
      table has been active the table can no longer be read at all. */
  lemma LineBreakLosesTable(s: State, stmt: InsertStatement, other: SelectStatement, query: SelectStatement)
    requires RuntimeOk(s.runtime) && FitsInsert(stmt) && CanStart(stmt) && other.table != ""
    requires stmt.table !in s.files && other.table !in s.files && !SameName(stmt.table, other.table)
    requires !SameName(s.runtime.name, stmt.table) && query.table == stmt.table
    requires NoBreaksInAny(stmt.columns) && !NoBreaksInAny(stmt.values)
    ensures var (s1, inserted) := ExecuteInsert(s, stmt);
            && inserted == Inserted(stmt.table) && RuntimeOk(s1.runtime)
            && ExecuteSelect(s1, query).1 == SelectFrom(["id"] + stmt.columns, [NewRow(1, stmt)], query)
            && RuntimeOk(ExecuteSelect(s1, other).0.runtime)
            && ExecuteSelect(ExecuteSelect(s1, other).0, query).1 == Failure("Failed to load table from storage.")
  {
    BrokenFirstInsert(s, stmt);
    NewTableOk(stmt);
    NewRowKeepsIds([], NewRow(1, stmt));
    assert [] + [NewRow(1, stmt)] == [NewRow(1, stmt)];
    assert FirstNamed(["id"] + stmt.columns, "id") == Some(0) by { assert SameName((["id"] + stmt.columns)[0], "id"); }
    hide AfterInsert, LoadTable, CanStart, SelectFrom, NoBreaksInAny, ExecuteInsert;
  }
}
