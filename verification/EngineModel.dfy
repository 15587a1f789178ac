/** The sequential meaning of one statement on the engine's own state: the single
    in-memory table, its name, and the table files (src/db/table_runtime.c,
    src/db/executor.c). The id index is not part of the state: the runtime class
    proves that it is determined by the rows. */
module EngineModel {
  import opened Text
  import opened Statements
  import opened Storage

  // ---- the in-memory table ------------------------------------------------------

  datatype Runtime = Runtime(name: string, loaded: bool, columns: seq<string>, rows: seq<seq<string>>, nextId: int)

  datatype State = State(runtime: Runtime, files: map<string, File>)

  predicate ValidId(text: string) {
    IsIntegerText(text) && 0 <= ParseInteger(text) <= INT_MAX
  }

  /** Every row has an id of its own that fits an `int`. */
  predicate IdsOk(rows: seq<seq<string>>, idIndex: nat) {
    && (forall i :: 0 <= i < |rows| ==> idIndex < |rows[i]| && ValidId(rows[i][idIndex]))
    && (forall i, j :: 0 <= i < j < |rows| ==> ParseInteger(rows[i][idIndex]) != ParseInteger(rows[j][idIndex]))
  }

  /** The table a runtime load produces from a file, if the load succeeds. */
  function LoadedTable(file: File): (table: Option<TableData>)
    ensures table.Some? ==> LoadTable(file) == table && file != []
    ensures table.Some? ==> FirstNamed(table.value.columns, "id").Some?
    ensures table.Some? ==> IdsOk(table.value.rows, FirstNamed(table.value.columns, "id").value)
  {
    var table := LoadTable(file);
    if table.None? || table.value.columns == [] then None
    else
      var id := FirstNamed(table.value.columns, "id");
      if id.None? || !IdsOk(table.value.rows, id.value) then None else table
  }

  function Unloaded(name: string): (runtime: Runtime) {
    Runtime(name, false, [], [], 1)
  }

  /** `table_get_or_load`: another table's runtime is dropped. */
  function Activate(r: Runtime, name: string): (active: Runtime) {
    if r.name != "" && SameName(r.name, name) then r else Unloaded(name)
  }

  /** The runtime after a successful load. */
  function FromTable(name: string, table: TableData): (runtime: Runtime)
    requires FirstNamed(table.columns, "id").Some? && IdsOk(table.rows, FirstNamed(table.columns, "id").value)
  {
    Runtime(name, true, table.columns, table.rows, NextIdOf(table.rows, FirstNamed(table.columns, "id").value, 1))
  }

  /** `table_load_from_storage_if_needed` for the active table. A file storage
      cannot read leaves the runtime alone; one with bad ids resets it. */
  function Load(r: Runtime, files: map<string, File>, name: string): (outcome: (bool, Runtime)) {
    if r.loaded || name !in files then (true, r)
    else if LoadTable(files[name]).None? then (false, r)
    else
      var table := LoadedTable(files[name]);
      if table.Some? then (true, FromTable(name, table.value))
      else (false, Unloaded(name))
  }

  // ---- INSERT ----------------------------------------------------------------------

  /** The statement can define a new table: no explicit id, room for the id column. */
  predicate CanStart(stmt: InsertStatement) {
    && 0 < |stmt.columns| < MAX_COLUMNS
    && forall i :: 0 <= i < |stmt.columns| ==> !SameName(stmt.columns[i], "id")
  }

  /** The statement names exactly the columns after the first, in order. */
  predicate SchemaMatches(columns: seq<string>, stmt: InsertStatement) {
    && 0 < |stmt.columns| == |columns| - 1
    && forall i :: 0 <= i < |stmt.columns| ==> SameName(columns[i + 1], stmt.columns[i])
  }

  function NewRow(nextId: nat, stmt: InsertStatement): (texts: seq<string>) {
    [Decimal(nextId)] + stmt.values
  }

  /** `table_insert_row` on the active, loaded-if-possible table. */
  function InsertRow(r: Runtime, files: map<string, File>, stmt: InsertStatement): (outcome: (bool, State))
    requires |stmt.values| == |stmt.columns| && r.nextId >= 0
  {
    if !r.loaded && !CanStart(stmt) then (false, State(r, files))
    else if r.loaded && (!SchemaMatches(r.columns, stmt) || r.nextId > INT_MAX) then (false, State(r, files))
    else
      var columns := if r.loaded then r.columns else ["id"] + stmt.columns;
      var grown := Runtime(r.name, true, columns, r.rows + [NewRow(r.nextId, stmt)], r.nextId + 1);
      var file := if r.name in files then files[r.name] else [];
      var stored := AfterInsert(file, stmt);
      if stored.Some? then (true, State(grown, files[r.name := stored.value]))
      else
        var files' := files[r.name := file];
        (false, State(Load(Unloaded(stmt.table), files', stmt.table).1, files'))
  }

  // ---- results -----------------------------------------------------------------------

  datatype ResultKind = InsertDone | SelectDone | Failed

  datatype DbResult = DbResult(kind: ResultKind, success: bool, columns: seq<string>, rows: seq<seq<string>>,
                               rowsAffected: nat, usedIdIndex: bool, message: string)

  function Failure(message: string): (result: DbResult) {
    DbResult(Failed, false, [], [], 0, false, message)
  }

  function NotFound(table: string): (result: DbResult) {
    Failure("Table '" + table + "' not found in runtime.")
  }

  function Inserted(table: string): (result: DbResult) {
    DbResult(InsertDone, true, [], [], 1, false, "1 row inserted into " + table + ".")
  }

  function Selected(columns: seq<string>, rows: seq<seq<string>>, usedIdIndex: bool): (result: DbResult) {
    DbResult(SelectDone, true, columns, rows, |rows|, usedIdIndex,
             Decimal(|rows|) + " row" + (if |rows| == 1 then "" else "s") + " selected.")
  }

  // ---- SELECT ----------------------------------------------------------------------------

  function UpTo(n: nat): (indices: seq<nat>)
    ensures |indices| == n && forall i :: 0 <= i < n ==> indices[i] == i
  {
    seq(n, i requires 0 <= i < n => i as nat)
  }

  /** The table columns the statement asks for, by position. */
  function Projection(columns: seq<string>, names: seq<string>): (indices: Option<seq<nat>>)
    ensures indices.Some? ==> forall i :: 0 <= i < |indices.value| ==> indices.value[i] < |columns|
  {
    if names == [] then Some(UpTo(|columns|))
    else if exists i :: 0 <= i < |names| && FirstNamed(columns, names[i]).None? then None
    else Some(seq(|names|, i requires 0 <= i < |names| => FirstNamed(columns, names[i]).value))
  }

  function Project(row: seq<string>, indices: seq<nat>): (texts: seq<string>)
    requires forall i :: 0 <= i < |indices| ==> indices[i] < |row|
  {
    seq(|indices|, i requires 0 <= i < |indices| => row[indices[i]])
  }

  predicate OpHolds(comparison: int, op: string) {
    if op == "=" then comparison == 0
    else if op == "!=" then comparison != 0
    else if op == ">" then comparison > 0
    else if op == ">=" then comparison >= 0
    else if op == "<" then comparison < 0
    else if op == "<=" then comparison <= 0
    else false
  }

  predicate Rectangular(rows: seq<seq<string>>, width: nat) {
    forall i :: 0 <= i < |rows| ==> |rows[i]| == width
  }

  /** The rows whose cell in column `c` satisfies the condition, projected, in order. */
  function Filtered(rows: seq<seq<string>>, width: nat, c: nat, where: WhereClause,
                    indices: seq<nat>): (picked: seq<seq<string>>)
    requires Rectangular(rows, width) && c < width
    requires forall i :: 0 <= i < |indices| ==> indices[i] < width
  {
    if rows == [] then []
    else
      (if OpHolds(Compare(rows[0][c], where.value), where.op) then [Project(rows[0], indices)] else [])
      + Filtered(rows[1..], width, c, where, indices)
  }

  function AllProjected(rows: seq<seq<string>>, width: nat, indices: seq<nat>): (picked: seq<seq<string>>)
    requires Rectangular(rows, width)
    requires forall i :: 0 <= i < |indices| ==> indices[i] < width
  {
    seq(|rows|, i requires 0 <= i < |rows| => Project(rows[i], indices))
  }

  /** The condition is an equality of the id column with an integer that fits an id. */
  predicate IsIdLookup(columns: seq<string>, rows: seq<seq<string>>, where: WhereClause) {
    && rows != []
    && where.op == "=" && ValidId(where.value)
    && FirstNamed(columns, "id").Some?
    && SameName(columns[FirstNamed(columns, "id").value], where.column)
  }

  /** What a SELECT answers on a table held as columns and rows: a plain filter. An
      empty table answers every condition, even one on a column it does not have. */
  function SelectFrom(columns: seq<string>, rows: seq<seq<string>>, stmt: SelectStatement): (result: DbResult)
    requires Rectangular(rows, |columns|)
  {
    var indices := Projection(columns, stmt.columns);
    if indices.None? then Failure("Failed to prepare SELECT projection.")
    else
      var headers := Project(columns, indices.value);
      if stmt.where.None? then Selected(headers, AllProjected(rows, |columns|, indices.value), false)
      else if rows == [] then Selected(headers, [], false)
      else
        var c := FirstNamed(columns, stmt.where.value.column);
        if c.None? then Failure("Failed to collect SELECT rows.")
        else Selected(headers, Filtered(rows, |columns|, c.value, stmt.where.value, indices.value),
                      IsIdLookup(columns, rows, stmt.where.value))
  }

  // ---- one statement -------------------------------------------------------------------------

  /** What every reachable runtime satisfies. */
  predicate RuntimeOk(r: Runtime) {
    if r.loaded then
      && r.name != "" && r.columns != [] && |r.columns| <= MAX_COLUMNS
      && Rectangular(r.rows, |r.columns|)
      && FirstNamed(r.columns, "id").Some?
      && IdsOk(r.rows, FirstNamed(r.columns, "id").value)
      && r.nextId == NextIdOf(r.rows, FirstNamed(r.columns, "id").value, 1) >= 1
    else r.rows == [] && r.nextId == 1
  }

  lemma LoadKeepsRuntimeOk(r: Runtime, files: map<string, File>, name: string)
    requires RuntimeOk(r) && name != ""
    ensures RuntimeOk(Load(r, files, name).1)
  {
    if !r.loaded && name in files && LoadedTable(files[name]).Some? {
      var table := LoadedTable(files[name]).value;
      NextIdAtLeast(table.rows, FirstNamed(table.columns, "id").value, 1);
    }
  }

  lemma {:induction false} NextIdAtLeast(rows: seq<seq<string>>, idIndex: nat, next: int)
    requires AllIntegerIds(rows, idIndex)
    ensures NextIdOf(rows, idIndex, next) >= next
    ensures forall i :: 0 <= i < |rows| ==> ParseInteger(rows[i][idIndex]) < NextIdOf(rows, idIndex, next)
    decreases |rows|
  {
    if rows != [] {
      var id := ParseInteger(rows[0][idIndex]);
      NextIdAtLeast(rows[1..], idIndex, if id >= next then id + 1 else next);
      forall i | 0 <= i < |rows| ensures ParseInteger(rows[i][idIndex]) < NextIdOf(rows, idIndex, next) {
        if i > 0 {
          assert rows[1..][i - 1] == rows[i];
        }
      }
    }
  }

  lemma {:induction false} NextIdExtends(rows: seq<seq<string>>, idIndex: nat, next: int, row: seq<string>)
    requires AllIntegerIds(rows, idIndex) && idIndex < |row| && IsIntegerText(row[idIndex])
    ensures NextIdOf(rows + [row], idIndex, next)
         == var before := NextIdOf(rows, idIndex, next);
            var id := ParseInteger(row[idIndex]);
            if id >= before then id + 1 else before
    decreases |rows|
  {
    if rows == [] {
      assert ([row])[1..] == [] && rows + [row] == [row];
    } else {
      assert (rows + [row])[1..] == rows[1..] + [row];
      var id := ParseInteger(rows[0][idIndex]);
      NextIdExtends(rows[1..], idIndex, if id >= next then id + 1 else next, row);
    }
  }

  function ExecuteInsert(s: State, stmt: InsertStatement): (outcome: (State, DbResult))
    requires RuntimeOk(s.runtime) && FitsInsert(stmt)
  {
    var active := Activate(s.runtime, stmt.table);
    LoadKeepsRuntimeOk(active, s.files, stmt.table);
    var (loadOk, loaded) := Load(active, s.files, stmt.table);
    if !loadOk then (State(loaded, s.files), Failure("Failed to load table from storage."))
    else
      var (insertOk, after) := InsertRow(loaded, s.files, stmt);
      (after, if insertOk then Inserted(stmt.table) else Failure("Failed to insert row into " + stmt.table + "."))
  }

  function ExecuteSelect(s: State, stmt: SelectStatement): (outcome: (State, DbResult))
    requires RuntimeOk(s.runtime) && stmt.table != ""
  {
    var active := Activate(s.runtime, stmt.table);
    LoadKeepsRuntimeOk(active, s.files, stmt.table);
    var (loadOk, loaded) := Load(active, s.files, stmt.table);
    (State(loaded, s.files),
     if !loadOk then Failure("Failed to load table from storage.")
     else if !loaded.loaded then NotFound(stmt.table)
     else SelectFrom(loaded.columns, loaded.rows, stmt))
  }

  /** `executor_execute_into_result`. */
  function Execute(s: State, stmt: Statement): (outcome: (State, DbResult))
    requires RuntimeOk(s.runtime) && Fits(stmt)
  {
    match stmt
    case Insert(insert) => ExecuteInsert(s, insert)
    case Select(select) => ExecuteSelect(s, select)
    case Delete(_) => (s, Failure("DELETE is not supported in memory runtime mode."))
  }

  // ---- the runtime invariant over runs ----------------------------------------------------------

  /** The loaded table's file still starts with the table's header. */
  predicate HeaderAgrees(r: Runtime, files: map<string, File>) {
    r.loaded ==> r.name in files && ReadHeader(files[r.name]) == Some(r.columns)
  }

  /** What keeps the ids sound, however tables are spelled: while the id column is not
      the first one, where the runtime writes ids, the file's header is the table's. */
  predicate HeaderKept(r: Runtime, files: map<string, File>) {
    r.loaded && FirstNamed(r.columns, "id") != Some(0) ==>
      r.name in files && ReadHeader(files[r.name]) == Some(r.columns)
  }

  lemma IdIsFirst(columns: seq<string>, stmt: InsertStatement)
    requires FirstNamed(columns, "id").Some? && SchemaMatches(columns, stmt)
    ensures FirstNamed(stmt.columns, "id").None? <==> (forall i :: 0 < i < |columns| ==> !SameName(columns[i], "id"))
    ensures FirstNamed(stmt.columns, "id").None? ==> FirstNamed(columns, "id") == Some(0)
  {
    if FirstNamed(stmt.columns, "id").None? {
      forall i | 0 < i < |columns| ensures !SameName(columns[i], "id") {
        assert SameName(columns[i - 1 + 1], stmt.columns[i - 1]);
      }
    } else {
      var i := FirstNamed(stmt.columns, "id").value;
      assert SameName(columns[i + 1], stmt.columns[i]);
    }
  }

  /** Storage accepts a row for a table whose header it reads only if the statement
      leaves the id to storage, and then the id column is the first one. */
  lemma StoredMeansIdFirst(file: File, columns: seq<string>, stmt: InsertStatement)
    requires ReadHeader(file) == Some(columns) && columns != [] && FirstNamed(columns, "id").Some?
    requires |stmt.values| == |stmt.columns| && SchemaMatches(columns, stmt) && AfterInsert(file, stmt).Some?
    ensures FirstNamed(columns, "id") == Some(0)
  {
    assert FirstNamed(stmt.columns, "id").None?;
    IdIsFirst(columns, stmt);
  }

  lemma StoredKeepsHeader(file: File, columns: seq<string>, stmt: InsertStatement)
    requires ReadHeader(file) == Some(columns) && columns != []
    requires |stmt.values| == |stmt.columns| && AfterInsert(file, stmt).Some?
    ensures ReadHeader(AfterInsert(file, stmt).value) == Some(columns)
  {
    assert file != [] && AfterInsert(file, stmt).value[0] == file[0];
  }
}
