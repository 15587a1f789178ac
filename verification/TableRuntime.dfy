/** The single active table in memory (src/db/table_runtime.c): rows, next id and the
    B+ tree over the ids, kept in step with each other and with the table file. */
module TableRuntimes {
  import opened Text
  import opened Statements
  import opened Storage
  import opened EngineModel
  import opened Answers
  import opened BPTreeIndex
  import Shape = BPTreeShape

  // ---- the index and the rows -----------------------------------------------------

  /** The index maps exactly the id of row `i` to `i`, for every row. */
  ghost predicate IndexMatches(contents: map<int, int>, rows: seq<seq<string>>, idIndex: nat)
    requires IdsOk(rows, idIndex)
  {
    && (forall i :: 0 <= i < |rows| ==>
          var id := ParseInteger(rows[i][idIndex]); id in contents && contents[id] == i)
    && (forall k :: k in contents ==> 0 <= contents[k] < |rows| && ParseInteger(rows[contents[k]][idIndex]) == k)
  }

  lemma IndexGrows(contents: map<int, int>, rows: seq<seq<string>>, idIndex: nat, row: seq<string>)
    requires IdsOk(rows, idIndex) && IndexMatches(contents, rows, idIndex)
    requires idIndex < |row| && ValidId(row[idIndex]) && ParseInteger(row[idIndex]) !in contents
    ensures IdsOk(rows + [row], idIndex)
    ensures IndexMatches(contents[ParseInteger(row[idIndex]) := |rows|], rows + [row], idIndex)
  {
    var longer, id := rows + [row], ParseInteger(row[idIndex]);
    forall i | 0 <= i < |rows| ensures ParseInteger(longer[i][idIndex]) != id {
      assert ParseInteger(rows[i][idIndex]) in contents;
    }
    assert forall i :: 0 <= i < |longer| ==> longer[i] == if i < |rows| then rows[i] else row;
  }

  lemma DuplicateBreaksIds(contents: map<int, int>, rows: seq<seq<string>>, idIndex: nat, all: seq<seq<string>>)
    requires IdsOk(rows, idIndex) && IndexMatches(contents, rows, idIndex)
    requires |rows| < |all| && rows == all[..|rows|]
    requires idIndex < |all[|rows|]| && ValidId(all[|rows|][idIndex]) && ParseInteger(all[|rows|][idIndex]) in contents
    ensures !IdsOk(all, idIndex)
  {
    var j := contents[ParseInteger(all[|rows|][idIndex])];
    assert all[j] == rows[j];
  }

  /** `table_load_from_storage_if_needed` on any runtime: an unnamed one takes the
      name, one for another table refuses. */
  function LoadChecked(r: Runtime, files: map<string, File>, name: string): (outcome: (bool, Runtime)) {
    if r.loaded then (true, r)
    else
      var named := if r.name == "" then r.(name := name) else r;
      if SameName(named.name, name) then Load(named, files, name) else (false, named)
  }

  /** `table_insert_row` on any runtime. */
  function InsertChecked(r: Runtime, files: map<string, File>, stmt: InsertStatement): (outcome: (bool, State))
    requires FitsInsert(stmt) && RuntimeOk(r)
  {
    var named := if r.name == "" then r.(name := stmt.table) else r;
    if !SameName(named.name, stmt.table) then (false, State(named, files))
    else
      LoadKeepsRuntimeOk(named, files, stmt.table);
      var (ok, loaded) := Load(named, files, stmt.table);
      if !ok then (false, State(loaded, files)) else InsertRow(loaded, files, stmt)
  }

  /** The load of an existing file into an unloaded runtime. */
  function LoadFrom(r: Runtime, file: File, name: string): (outcome: (bool, Runtime)) {
    if LoadTable(file).None? then (false, r)
    else
      var table := LoadedTable(file);
      if table.Some? then (true, FromTable(name, table.value)) else (false, Unloaded(name))
  }

  /** The checks and the copy loop of `table_initialize_schema`. */
  method SchemaFor(stmt: InsertStatement) returns (names: Option<seq<string>>)
    ensures names == if CanStart(stmt) then Some(["id"] + stmt.columns) else None
  {
    if |stmt.columns| == 0 || |stmt.columns| + 1 > MAX_COLUMNS {
      return None;
    }
    var copied := ["id"];
    var i := 0;
    while i < |stmt.columns|
      invariant 0 <= i <= |stmt.columns| && copied == ["id"] + stmt.columns[..i]
      invariant forall j :: 0 <= j < i ==> !SameName(stmt.columns[j], "id")
    {
      var explicitId := EqualsIgnoreCase(stmt.columns[i], "id");
      if explicitId {
        return None;
      }
      copied := copied + [stmt.columns[i]];
      i := i + 1;
    }
    assert stmt.columns[..i] == stmt.columns;
    return Some(copied);
  }

  lemma NothingIsOk(tableName: string)
    ensures RuntimeOk(Unloaded(tableName)) && IdsOk([], 0) && IndexMatches(map[], [], 0)
  {
  }

  class TableRuntime {
    var name: string
    var loaded: bool
    var columns: seq<string>
    var rows: seq<seq<string>>
    var idColumnIndex: nat
    var nextId: int
    const index: BPTree

    ghost function Abs(): (runtime: Runtime)
      reads this
    {
      Runtime(name, loaded, columns, rows, nextId)
    }

    /** In every reachable state: ids are distinct and fit an int, the next id exceeds
        them all, and the B+ tree is exactly the map from ids to row positions. */
    ghost predicate Valid()
      reads this, index, index.repr
    {
      && index.Valid() && this !in index.repr
      && RuntimeOk(Abs())
      && (loaded ==> FirstNamed(columns, "id") == Some(idColumnIndex))
      && IdsOk(rows, idColumnIndex) && IndexMatches(index.contents, rows, idColumnIndex)
    }

    /** `table_init`. */
    constructor ()
      ensures Valid() && fresh(index) && fresh(index.repr) && Abs() == Unloaded("")
    {
      name, loaded, columns, rows, idColumnIndex, nextId := "", false, [], [], 0, 1;
      index := new BPTree();
      new;
      Reset("");
    }

    /** `table_free`, `table_init` and the new name: `table_reset_as_unloaded`. */
    method Reset(tableName: string)
      modifies this, index
      ensures Valid() && Abs() == Unloaded(tableName) && index.repr == {} && index.contents == map[]
    {
      hide RuntimeOk, IdsOk, IndexMatches, BPTree.Valid;
      index.Free();
      NothingIsOk(tableName);
      name, loaded, columns, rows, idColumnIndex, nextId := tableName, false, [], [], 0, 1;
    }

    /** `table_get_or_load`. */
    method Activate(tableName: string)
      requires Valid()
      modifies this, index
      ensures Valid() && index.repr <= old(index.repr)
      ensures Abs() == EngineModel.Activate(old(Abs()), tableName)
    {
      if name != "" {
        var same := EqualsIgnoreCase(name, tableName);
        if same {
          return;
        }
      }
      Reset(tableName);
    }

    /** The first `i` source rows are in memory and indexed. */
    ghost predicate Filled(source: seq<seq<string>>, id: nat, i: nat)
      requires i <= |source|
      reads this, index, index.repr
    {
      && index.Valid() && this !in index.repr
      && rows == source[..i] && IdsOk(rows, id)
      && IndexMatches(index.contents, rows, id)
      && nextId == NextIdOf(rows, id, 1) >= 1
    }

    /** The schema half of the state. */
    ghost function Schema(): (outcome: (string, bool, seq<string>, nat))
      reads this
    {
      (name, loaded, columns, idColumnIndex)
    }

    /** One turn of the row loop of `table_load_from_storage_if_needed`. */
    method FillRow(source: seq<seq<string>>, id: nat, i: nat) returns (ok: bool)
      requires i < |source| && id < |source[i]| && Filled(source, id, i)
      modifies this, index, index.repr
      ensures fresh(index.repr - old(index.repr)) && Schema() == old(Schema())
      ensures index.Valid() && this !in index.repr
      ensures if ok then Filled(source, id, i + 1) else !IdsOk(source, id)
    {
      hide BPTree.Valid, IsIntegerText, ParseInteger;
      var row := source[i];
      var isInteger := IsInteger(row[id]);
      if !isInteger {
        return false;
      }
      var parsed := ParseInteger(row[id]);
      if parsed < 0 || parsed > INT_MAX {
        return false;
      }
      ghost var before := index.contents;
      if parsed in before {
        DuplicateBreaksIds(before, rows, id, source);
      } else {
        IndexGrows(before, rows, id, row);
      }
      NextIdExtends(rows, id, 1, row);
      assert source[..i + 1] == rows + [row];
      hide IndexMatches, IdsOk, NextIdOf;
      var added := index.Insert(parsed, i);
      if !added {
        return false;
      }
      rows := rows + [row];
      if parsed >= nextId {
        nextId := parsed + 1;
      }
      return true;
    }

    /** The row loop of `table_load_from_storage_if_needed`. */
    method FillRows(source: seq<seq<string>>, id: nat) returns (ok: bool)
      requires index.Valid() && this !in index.repr && index.contents == map[]
      requires forall i :: 0 <= i < |source| ==> id < |source[i]|
      modifies this, index, index.repr
      ensures fresh(index.repr - old(index.repr)) && Schema() == old(Schema())
      ensures index.Valid() && this !in index.repr
      ensures ok == IdsOk(source, id)
      ensures ok ==> Filled(source, id, |source|)
    {
      hide Filled, BPTree.Valid, IdsOk, IndexMatches, NextIdOf;
      rows, nextId := [], 1;
      NothingFilled(source, id);
      var i := 0;
      while i < |source|
        invariant 0 <= i <= |source|
        invariant index.Valid() && this !in index.repr && fresh(index.repr - old(index.repr))
        invariant Filled(source, id, i) && Schema() == old(Schema())
      {
        ok := FillRow(source, id, i);
        if !ok {
          return;
        }
        i := i + 1;
      }
      FilledIsOk(source, id);
      return true;
    }

    lemma NothingFilled(source: seq<seq<string>>, id: nat)
      requires index.Valid() && this !in index.repr && index.contents == map[] && rows == [] && nextId == 1
      ensures Filled(source, id, 0)
    {
    }

    lemma FilledIsOk(source: seq<seq<string>>, id: nat)
      requires Filled(source, id, |source|)
      ensures IdsOk(source, id)
    {
      assert source[..|source|] == source;
    }

    /** The part of the load that follows the reset: schema, then rows. */
    method AdoptTable(table: TableData, ghost file: File) returns (ok: bool)
      requires Valid() && name != "" && index.contents == map[] && LoadTable(file) == Some(table)
      modifies this, index, index.repr
      ensures fresh(index.repr - old(index.repr)) && index.Valid() && this !in index.repr
      ensures ok == LoadedTable(file).Some?
      ensures ok ==> Valid() && Abs() == FromTable(old(name), table)
    {
      hide BPTree.Valid, IdsOk, IndexMatches, NextIdOf, LoadTable;
      if table.columns == [] {
        return false;
      }
      var id := FindColumnIndex(table.columns, "id");
      if id.None? {
        return false;
      }
      columns, idColumnIndex, loaded := table.columns, id.value, true;
      RowsHaveIdCell(file, table);
      ok := FillRows(table.rows, id.value);
      if ok {
        assert table.rows[..|table.rows|] == table.rows;
        LoadedIsOk(file, table);
      } else {
        NotLoaded(file, table);
      }
    }

    /** The loading half of `table_load_from_storage_if_needed`. */
    method LoadFile(file: File, tableName: string) returns (ok: bool)
      requires Valid() && !loaded && tableName != ""
      modifies this, index, index.repr
      ensures Valid() && fresh(index.repr - old(index.repr))
      ensures (ok, Abs()) == LoadFrom(old(Abs()), file, tableName)
    {
      hide BPTree.Valid, LoadTable, RuntimeOk, IdsOk, IndexMatches, FirstNamed;
      var table := LoadTableFromFile(file);
      if table.None? {
        return false;
      }
      Reset(tableName);
      ok := AdoptTable(table.value, file);
      if !ok {
        Reset(tableName);
      }
    }

    /** `table_load_from_storage_if_needed`. */
    method LoadIfNeeded(disk: Disk, tableName: string) returns (ok: bool)
      requires Valid() && tableName != ""
      modifies this, index, index.repr
      ensures Valid() && fresh(index.repr - old(index.repr))
      ensures (ok, Abs()) == LoadChecked(old(Abs()), old(disk.files), tableName)
    {
      hide BPTree.Valid, IdsOk, IndexMatches, NextIdOf, FirstNamed;
      if loaded {
        return true;
      }
      if name == "" {
        name := tableName;
      }
      var same := EqualsIgnoreCase(name, tableName);
      if !same {
        return false;
      }
      if tableName !in disk.files {
        return true;
      }
      ok := LoadFile(disk.files[tableName], tableName);
    }

    /** `table_initialize_schema`. */
    method InitializeSchema(stmt: InsertStatement) returns (ok: bool)
      requires Valid() && !loaded && name != ""
      modifies this
      ensures Valid() && index.repr == old(index.repr)
      ensures ok == CanStart(stmt)
      ensures Abs() == if ok then Runtime(old(name), true, ["id"] + stmt.columns, [], 1) else old(Abs())
    {
      hide BPTree.Valid;
      var names := SchemaFor(stmt);
      if names.None? {
        return false;
      }
      assert SameName(names.value[0], "id") && FirstNamed(names.value, "id") == Some(0);
      columns, idColumnIndex, loaded := names.value, 0, true;
      return true;
    }

    /** `table_validate_insert_schema`. */
    method ValidateInsertSchema(stmt: InsertStatement) returns (ok: bool)
      ensures ok == SchemaMatches(columns, stmt) && (ok <==> NamesTheRest(columns, stmt.columns))
    {
      SchemaMatchesExactly(columns, stmt);
      hide NamesTheRest;
      if |stmt.columns| == 0 || |stmt.columns| != |columns| - 1 {
        return false;
      }
      var i := 0;
      while i < |stmt.columns|
        invariant 0 <= i <= |stmt.columns|
        invariant forall j :: 0 <= j < i ==> SameName(columns[j + 1], stmt.columns[j])
      {
        var same := EqualsIgnoreCase(columns[i + 1], stmt.columns[i]);
        if !same {
          return false;
        }
        i := i + 1;
      }
      return true;
    }

    /** The part of `table_insert_row` that grows the table in memory. The refusal of
        `bptree_insert` cannot happen: the next id exceeds every id in the tree. A
        table whose id column is not the first is left to storage to refuse. */
    method AppendRow(stmt: InsertStatement) returns (ok: bool)
      requires Valid() && loaded && |stmt.values| == |stmt.columns| == |columns| - 1
      modifies this, index, index.repr
      ensures fresh(index.repr - old(index.repr)) && index.Valid() && this !in index.repr
      ensures ok == (old(nextId) <= INT_MAX) && name == old(name)
      ensures !ok ==> Valid() && Abs() == old(Abs())
      ensures ok ==> Abs() == Runtime(old(name), true, old(columns), old(rows) + [NewRow(old(nextId), stmt)],
        old(nextId) + 1)
      ensures ok && old(idColumnIndex) == 0 ==> Valid()
    {
      hide BPTree.Valid, NextIdOf;
      var row := [Decimal(nextId)] + stmt.values;
      if nextId > INT_MAX {
        return false;
      }
      DecimalRoundTrip(nextId);
      NextIdAtLeast(rows, idColumnIndex, 1);
      NextIdIsFresh(index.contents, rows, idColumnIndex, nextId);
      if idColumnIndex == 0 {
        IndexGrows(index.contents, rows, 0, row);
        NextIdExtends(rows, 0, 1, row);
      }
      hide IdsOk, IndexMatches;
      var added := index.Insert(nextId, |rows|);
      if !added {
        assert false;
      }
      rows, nextId := rows + [row], nextId + 1;
      return true;
    }

    /** The schema step of `table_insert_row`: fix the schema of a new table, or check
        the statement against the schema of an existing one. */
    method PrepareSchema(stmt: InsertStatement) returns (ok: bool)
      requires Valid() && name != ""
      modifies this
      ensures Valid() && index.repr == old(index.repr)
      ensures ok == if old(loaded) then SchemaMatches(old(columns), stmt) else CanStart(stmt)
      ensures Abs() == if ok && !old(loaded) then Runtime(old(name), true, ["id"] + stmt.columns, [], 1) else old(Abs())
    {
      if !loaded {
        ok := InitializeSchema(stmt);
      } else {
        ok := ValidateInsertSchema(stmt);
      }
    }

    /** The write-through step: a refusal by storage drops the table and reloads it. */
    method StoreRow(disk: Disk, stmt: InsertStatement) returns (ok: bool)
      requires index.Valid() && this !in index.repr && disk !in index.repr && FitsInsert(stmt)
      requires AfterInsert(disk.Content(name), stmt).Some? ==> Valid()
      modifies this, index, index.repr, disk
      ensures Valid() && fresh(index.repr - old(index.repr))
      ensures var stored := AfterInsert(old(disk.Content(name)), stmt);
              ok == stored.Some?
              && disk.files == old(disk.files)[old(name) := if ok then stored.value else old(disk.Content(name))]
              && Abs() == if ok then old(Abs()) else Load(Unloaded(stmt.table), disk.files, stmt.table).1
    {
      hide BPTree.Valid, IdsOk, IndexMatches, RuntimeOk;
      ok := disk.Insert(name, stmt);
      if !ok {
        Reset(stmt.table);
        var ignored := LoadIfNeeded(disk, stmt.table);
      }
    }

    /** `table_insert_row` once the table is loaded, if it exists. */
    method InsertLoaded(disk: Disk, stmt: InsertStatement) returns (ok: bool)
      requires Valid() && name != "" && disk !in index.repr && FitsInsert(stmt) && HeaderKept(Abs(), disk.files)
      modifies this, index, index.repr, disk
      ensures Valid() && fresh(index.repr - old(index.repr))
      ensures (ok, State(Abs(), disk.files)) == EngineModel.InsertRow(old(Abs()), old(disk.files), stmt)
    {
      hide BPTree.Valid, IdsOk, IndexMatches, NextIdOf, AfterInsert, Load;
      var prepared := PrepareSchema(stmt);
      if !prepared {
        return false;
      }
      ghost var file := disk.Content(name);
      if old(loaded) && AfterInsert(file, stmt).Some? && FirstNamed(columns, "id") != Some(0) {
        StoredMeansIdFirst(file, columns, stmt);
      }
      assert !old(loaded) ==> columns[0] == "id" && SameName(columns[0], "id");
      var appended := AppendRow(stmt);
      if !appended {
        return false;
      }
      ok := StoreRow(disk, stmt);
    }

    /** `table_insert_row`. */
    method InsertRow(disk: Disk, stmt: InsertStatement) returns (ok: bool, rowIndex: nat)
      requires Valid() && disk !in index.repr && FitsInsert(stmt) && HeaderKept(Abs(), disk.files)
      modifies this, index, index.repr, disk
      ensures Valid() && fresh(index.repr - old(index.repr))
      ensures (ok, State(Abs(), disk.files)) == InsertChecked(old(Abs()), old(disk.files), stmt)
      ensures ok ==> rowIndex + 1 == |rows|
    {
      hide BPTree.Valid, IdsOk, IndexMatches, NextIdOf, AfterInsert;
      rowIndex := 0;
      if name == "" {
        name := stmt.table;
      }
      var same := EqualsIgnoreCase(name, stmt.table);
      if !same {
        return false, 0;
      }
      var loadOk := LoadIfNeeded(disk, stmt.table);
      if !loadOk {
        return false, 0;
      }
      LoadAgrees(old(Abs()), disk.files, stmt.table);
      ok := InsertLoaded(disk, stmt);
      rowIndex := if ok then |rows| - 1 else 0;
    }

    /** `table_get_row_by_slot`. */
    method GetRowBySlot(rowIndex: int) returns (row: Option<seq<string>>)
      ensures row == if 0 <= rowIndex < |rows| then Some(rows[rowIndex]) else None
    {
      return if rowIndex < 0 || rowIndex >= |rows| then None else Some(rows[rowIndex]);
    }
  }

  /** A load leaves a runtime whose header is the file's, or no table at all. */
  lemma LoadAgrees(r: Runtime, files: map<string, File>, name: string)
    requires HeaderKept(r, files)
    ensures HeaderKept(LoadChecked(r, files, name).1, files)
  {
  }

  lemma NextIdIsFresh(contents: map<int, int>, rows: seq<seq<string>>, idIndex: nat, nextId: int)
    requires IdsOk(rows, idIndex) && IndexMatches(contents, rows, idIndex)
    requires forall i :: 0 <= i < |rows| ==> ParseInteger(rows[i][idIndex]) < nextId
    ensures nextId !in contents
  {
  }

  lemma RowsHaveIdCell(file: File, table: TableData)
    requires LoadTable(file) == Some(table) && FirstNamed(table.columns, "id").Some?
    ensures forall i :: 0 <= i < |table.rows| ==> FirstNamed(table.columns, "id").value < |table.rows[i]|
  {
  }

  lemma NotLoaded(file: File, table: TableData)
    requires LoadTable(file) == Some(table) && FirstNamed(table.columns, "id").Some?
    requires !IdsOk(table.rows, FirstNamed(table.columns, "id").value)
    ensures LoadedTable(file).None?
  {
  }

  lemma LoadedIsOk(file: File, table: TableData)
    requires LoadTable(file) == Some(table) && FirstNamed(table.columns, "id").Some? && table.columns != []
    requires IdsOk(table.rows, FirstNamed(table.columns, "id").value)
    ensures LoadedTable(file) == Some(table)
    ensures Rectangular(table.rows, |table.columns|) && |table.columns| <= MAX_COLUMNS
  {
  }
}
