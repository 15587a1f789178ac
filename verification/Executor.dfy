/** Execution of parsed statements on the active table (src/db/executor.c and the
    scans of src/db/table_runtime.c). */
module Executor {
  import opened Text
  import opened Statements
  import opened Storage
  import opened EngineModel
  import opened Answers
  import opened BPTreeIndex
  import opened TableRuntimes
  import Shape = BPTreeShape

  // ---- scanning -------------------------------------------------------------------

  /** The positions, from `i` on, of the rows that satisfy the condition. */
  function MatchesFrom(rows: seq<seq<string>>, width: nat, c: nat, where: WhereClause, i: nat): (found: seq<nat>)
    requires Rectangular(rows, width) && c < width && i <= |rows|
    ensures forall k :: 0 <= k < |found| ==> found[k] < |rows|
    decreases |rows| - i
  {
    if i == |rows| then []
    else
      (if OpHolds(Compare(rows[i][c], where.value), where.op) then [i] else [])
      + MatchesFrom(rows, width, c, where, i + 1)
  }

  /** `table_where_matches`: an operator it does not know matches nothing. */
  method WhereMatches(comparison: int, op: string) returns (yes: bool)
    ensures yes == OpHolds(comparison, op)
  {
    if op == "=" {
      return comparison == 0;
    }
    if op == "!=" {
      return comparison != 0;
    }
    if op == ">" {
      return comparison > 0;
    }
    if op == ">=" {
      return comparison >= 0;
    }
    if op == "<" {
      return comparison < 0;
    }
    if op == "<=" {
      return comparison <= 0;
    }
    return false;
  }

  /** `table_linear_scan_by_field`. */
  method LinearScanByField(table: TableRuntime, where: Option<WhereClause>) returns (matches: Option<seq<nat>>)
    requires RuntimeOk(table.Abs())
    ensures where.None? ==> matches == Some(UpTo(|table.rows|))
    ensures where.Some? && table.rows == [] ==> matches == Some([])
    ensures where.Some? && table.rows != [] ==>
              var c := FirstNamed(table.columns, where.value.column);
              matches == if c.None? then None
                         else Some(MatchesFrom(table.rows, |table.columns|, c.value, where.value, 0))
  {
    if |table.rows| == 0 {
      assert UpTo(|table.rows|) == [];
      return Some([]);
    }
    if where.None? {
      var all: seq<nat> := [];
      var k := 0;
      while k < |table.rows|
        invariant 0 <= k <= |table.rows| && |all| == k
        invariant forall j :: 0 <= j < k ==> all[j] == j
      {
        all := all + [k];
        k := k + 1;
      }
      assert all == UpTo(|table.rows|);
      return Some(all);
    }
    var c := FindColumnIndex(table.columns, where.value.column);
    if c.None? {
      return None;
    }
    var found := ScanRows(table.rows, |table.columns|, c.value, where.value);
    return Some(found);
  }

  lemma MatchesStep(rows: seq<seq<string>>, width: nat, c: nat, where: WhereClause, found: seq<nat>, i: nat)
    requires Rectangular(rows, width) && c < width && i < |rows|
    ensures found + MatchesFrom(rows, width, c, where, i)
         == (if OpHolds(Compare(rows[i][c], where.value), where.op) then found + [i] else found)
            + MatchesFrom(rows, width, c, where, i + 1)
  {
    JoinTwice(found, [i], MatchesFrom(rows, width, c, where, i + 1));
  }

  /** The row loop of `table_linear_scan_by_field`. */
  method ScanRows(rows: seq<seq<string>>, width: nat, c: nat, where: WhereClause) returns (found: seq<nat>)
    requires Rectangular(rows, width) && c < width
    ensures found == MatchesFrom(rows, width, c, where, 0)
  {
    hide Compare, OpHolds;
    found := [];
    var i := 0;
    while i < |rows|
      invariant 0 <= i <= |rows|
      invariant MatchesFrom(rows, width, c, where, 0) == found + MatchesFrom(rows, width, c, where, i)
    {
      MatchesStep(rows, width, c, where, found, i);
      hide MatchesFrom;
      var comparison := CompareValues(rows[i][c], where.value);
      var yes := WhereMatches(comparison, where.op);
      if yes {
        found := found + [i];
      }
      i := i + 1;
    }
  }

  // ---- projecting -------------------------------------------------------------------

  /** `executor_prepare_projection`. */
  method PrepareProjection(columns: seq<string>, names: seq<string>)
    returns (indices: Option<seq<nat>>, headers: seq<string>)
    ensures indices == Projection(columns, names)
    ensures indices.Some? ==> headers == Project(columns, indices.value)
    ensures indices.Some? ==> ShowsColumns(columns, SelectStatement("", names, None), indices.value)
  {
    hide ShowsColumns;
    if Projection(columns, names).Some? {
      ghost var shown := ProjectionShows(columns, SelectStatement("", names, None));
    }
    var selected: seq<nat> := [];
    headers := [];
    var i := 0;
    if |names| == 0 {
      while i < |columns|
        invariant 0 <= i <= |columns| && |selected| == |headers| == i
        invariant forall j :: 0 <= j < i ==> selected[j] == j && headers[j] == columns[j]
      {
        selected, headers := selected + [i], headers + [columns[i]];
        i := i + 1;
      }
      assert selected == UpTo(|columns|);
      return Some(selected), headers;
    }
    while i < |names|
      invariant 0 <= i <= |names| && |selected| == |headers| == i
      invariant forall j :: 0 <= j < i ==> FirstNamed(columns, names[j]) == Some(selected[j])
      invariant forall j :: 0 <= j < i ==> selected[j] < |columns| && headers[j] == columns[selected[j]]
    {
      var c := FindColumnIndex(columns, names[i]);
      if c.None? {
        return None, [];
      }
      selected, headers := selected + [c.value], headers + [columns[c.value]];
      i := i + 1;
    }
    assert Projection(columns, names).value == selected;
    return Some(selected), headers;
  }

  /** `executor_copy_projected_row`. */
  method CopyProjectedRow(row: seq<string>, indices: seq<nat>) returns (copy: seq<string>)
    requires forall i :: 0 <= i < |indices| ==> indices[i] < |row|
    ensures copy == Project(row, indices)
  {
    copy := [];
    var i := 0;
    while i < |indices|
      invariant 0 <= i <= |indices| && |copy| == i
      invariant forall j :: 0 <= j < i ==> copy[j] == row[indices[j]]
    {
      copy := copy + [row[indices[i]]];
      i := i + 1;
    }
  }

  /** `executor_collect_rows_by_indices`: a position outside the table fails. */
  method CollectRowsByIndices(table: TableRuntime, indices: seq<nat>, rowIndices: seq<nat>)
    returns (collected: Option<seq<seq<string>>>)
    requires RuntimeOk(table.Abs()) && table.loaded
    requires forall i :: 0 <= i < |indices| ==> indices[i] < |table.columns|
    ensures collected.Some? <==> forall k :: 0 <= k < |rowIndices| ==> rowIndices[k] < |table.rows|
    ensures collected.Some? ==>
              |collected.value| == |rowIndices|
              && forall k :: 0 <= k < |rowIndices| ==> collected.value[k] == Project(table.rows[rowIndices[k]], indices)
  {
    hide IdsOk, NextIdOf, FirstNamed, Project;
    var result: seq<seq<string>> := [];
    var i := 0;
    while i < |rowIndices|
      invariant 0 <= i <= |rowIndices| && |result| == i
      invariant forall k :: 0 <= k < i ==> rowIndices[k] < |table.rows|
      invariant forall k :: 0 <= k < i ==> result[k] == Project(table.rows[rowIndices[k]], indices)
    {
      var source := table.GetRowBySlot(rowIndices[i]);
      if source.None? {
        return None;
      }
      var projected := CopyProjectedRow(source.value, indices);
      result := result + [projected];
      i := i + 1;
    }
    return Some(result);
  }

  // ---- the linear path is the filter ---------------------------------------------------

  /** Projecting the matching positions is filtering the rows. */
  lemma {:induction false} MatchesAreFiltered(rows: seq<seq<string>>, width: nat, c: nat, where: WhereClause,
                                              indices: seq<nat>, i: nat)
    requires Rectangular(rows, width) && c < width && i <= |rows|
    requires forall k :: 0 <= k < |indices| ==> indices[k] < width
    ensures var found := MatchesFrom(rows, width, c, where, i);
            var filtered := Filtered(rows[i..], width, c, where, indices);
            && |filtered| == |found|
            && forall k :: 0 <= k < |found| ==> filtered[k] == Project(rows[found[k]], indices)
    decreases |rows| - i
  {
    if i < |rows| {
      assert rows[i..][1..] == rows[i + 1..];
      MatchesAreFiltered(rows, width, c, where, indices, i + 1);
    }
  }

  // ---- the index path is the filter -------------------------------------------------------

  /** On the id column, equality with an integer literal is equality of the numbers,
      however either of them is spelled. */
  lemma IdEquality(cell: string, where: WhereClause)
    requires ValidId(cell) && where.op == "=" && IsIntegerText(where.value)
    ensures OpHolds(Compare(cell, where.value), where.op) <==> ParseInteger(cell) == ParseInteger(where.value)
  {
  }

  lemma {:induction false} FilteredNothing(rows: seq<seq<string>>, width: nat, c: nat, where: WhereClause,
                                           indices: seq<nat>)
    requires Rectangular(rows, width) && c < width
    requires forall k :: 0 <= k < |indices| ==> indices[k] < width
    requires forall i :: 0 <= i < |rows| ==> !OpHolds(Compare(rows[i][c], where.value), where.op)
    ensures Filtered(rows, width, c, where, indices) == []
  {
    if rows != [] {
      FilteredNothing(rows[1..], width, c, where, indices);
    }
  }

  lemma {:induction false} FilteredOne(rows: seq<seq<string>>, width: nat, c: nat, where: WhereClause,
                                       indices: seq<nat>, at: nat)
    requires Rectangular(rows, width) && c < width && at < |rows|
    requires forall k :: 0 <= k < |indices| ==> indices[k] < width
    requires forall i :: 0 <= i < |rows| ==> (OpHolds(Compare(rows[i][c], where.value), where.op) <==> i == at)
    ensures Filtered(rows, width, c, where, indices) == [Project(rows[at], indices)]
  {
    if at == 0 {
      FilteredNothing(rows[1..], width, c, where, indices);
    } else {
      FilteredOne(rows[1..], width, c, where, indices, at - 1);
    }
  }

  /** Whenever the id index is usable, one lookup in it answers the filter. */
  lemma LookupIsFilter(contents: map<int, int>, columns: seq<string>, rows: seq<seq<string>>, where: WhereClause,
                       indices: seq<nat>)
    requires Rectangular(rows, |columns|) && IsIdLookup(columns, rows, where)
    requires forall k :: 0 <= k < |indices| ==> indices[k] < |columns|
    requires IdsOk(rows, FirstNamed(columns, "id").value)
    requires IndexMatches(contents, rows, FirstNamed(columns, "id").value)
    ensures FirstNamed(columns, where.column) == FirstNamed(columns, "id")
    ensures var key := ParseInteger(where.value);
            var c := FirstNamed(columns, "id").value;
            Filtered(rows, |columns|, c, where, indices)
            == if key in contents then [Project(rows[contents[key]], indices)] else []
  {
    var c := FirstNamed(columns, "id").value;
    FirstNamedSame(columns, "id", columns[c]);
    FirstNamedSame(columns, columns[c], where.column);
    var key := ParseInteger(where.value);
    forall i | 0 <= i < |rows|
      ensures OpHolds(Compare(rows[i][c], where.value), where.op) <==> key in contents && i == contents[key]
    {
      IdEquality(rows[i][c], where);
    }
    if key in contents {
      FilteredOne(rows, |columns|, c, where, indices, contents[key]);
    } else {
      FilteredNothing(rows, |columns|, c, where, indices);
    }
  }

  /** `executor_can_use_id_index`. */
  method CanUseIdIndex(table: TableRuntime, where: WhereClause) returns (key: Option<int>)
    requires table.Valid() && table.loaded
    ensures key.Some? <==> IsIdLookup(table.columns, table.rows, where)
    ensures key.Some? ==> key.value == ParseInteger(where.value)
  {
    RootMeansEntries(table.index);
    RowsMeanEntries(table.index.contents, table.rows, table.idColumnIndex);
    hide BPTree.Valid, IdsOk, IndexMatches, NextIdOf;
    if table.index.root == null {
      return None;
    }
    var isInteger := IsInteger(where.value);
    if where.op != "=" || !isInteger {
      return None;
    }
    var isId := EqualsIgnoreCase(table.columns[table.idColumnIndex], where.column);
    if !isId {
      return None;
    }
    var parsed := ParseInteger(where.value);
    if parsed < 0 || parsed > INT_MAX {
      return None;
    }
    return Some(parsed);
  }

  lemma RowsMeanEntries(contents: map<int, int>, rows: seq<seq<string>>, idIndex: nat)
    requires IdsOk(rows, idIndex) && IndexMatches(contents, rows, idIndex)
    ensures (exists k :: k in contents) <==> rows != []
  {
    if rows != [] {
      assert ParseInteger(rows[0][idIndex]) in contents;
    }
  }

  /** `executor_collect_rows_by_id`. */
  method CollectRowsById(table: TableRuntime, where: WhereClause, key: int, indices: seq<nat>)
    returns (collected: Option<seq<seq<string>>>)
    requires table.Valid() && table.loaded && IsIdLookup(table.columns, table.rows, where)
      && key == ParseInteger(where.value)
    requires forall i :: 0 <= i < |indices| ==> indices[i] < |table.columns|
    ensures FirstNamed(table.columns, where.column).Some?
    ensures collected == Some(Filtered(table.rows, |table.columns|, FirstNamed(table.columns, where.column).value,
      where, indices))
  {
    hide BPTree.Valid, NextIdOf, FirstNamed, Filtered;
    LookupIsFilter(table.index.contents, table.columns, table.rows, where, indices);
    var found, rowIndex := table.index.Search(key);
    if !found {
      return Some([]);
    }
    assert 0 <= rowIndex < |table.rows|;
    hide IndexMatches, IdsOk;
    collected := CollectRowsByIndices(table, indices, [rowIndex]);
    assert collected.value == [Project(table.rows[rowIndex], indices)];
  }

  /** `executor_collect_rows_by_scan` and `executor_collect_all_rows`. */
  method CollectRowsByScan(table: TableRuntime, where: Option<WhereClause>, indices: seq<nat>)
    returns (collected: Option<seq<seq<string>>>)
    requires RuntimeOk(table.Abs()) && table.loaded
    requires forall i :: 0 <= i < |indices| ==> indices[i] < |table.columns|
    ensures where.None? ==> collected == Some(AllProjected(table.rows, |table.columns|, indices))
    ensures where.Some? && table.rows == [] ==> collected == Some([])
    ensures where.Some? && table.rows != [] ==>
              var c := FirstNamed(table.columns, where.value.column);
              collected == if c.None? then None
                else Some(Filtered(table.rows, |table.columns|, c.value, where.value, indices))
  {
    hide MatchesFrom, Filtered, FirstNamed, IdsOk, NextIdOf, Project;
    var rowIndices := LinearScanByField(table, where);
    if rowIndices.None? {
      return None;
    }
    collected := CollectRowsByIndices(table, indices, rowIndices.value);
    if where.None? {
      assert collected.value == AllProjected(table.rows, |table.columns|, indices);
    } else if table.rows != [] {
      var c := FirstNamed(table.columns, where.value.column).value;
      MatchesAreFiltered(table.rows, |table.columns|, c, where.value, indices, 0);
      assert table.rows[0..] == table.rows;
      assert collected.value == Filtered(table.rows, |table.columns|, c, where.value, indices);
    }
  }

  // ---- statements -----------------------------------------------------------------------------

  /** `executor_execute_select` on a loaded table: which collector runs depends on the
      condition, the answer does not. */
  method SelectLoaded(table: TableRuntime, stmt: SelectStatement) returns (result: DbResult)
    requires table.Valid() && table.loaded
    ensures result == SelectFrom(table.columns, table.rows, stmt)
  {
    var indices, headers := PrepareProjection(table.columns, stmt.columns);
    if indices.None? {
      return Failure("Failed to prepare SELECT projection.");
    }
    var collected: Option<seq<seq<string>>>;
    var usedIdIndex := false;
    if stmt.where.None? {
      collected := CollectRowsByScan(table, None, indices.value);
    } else {
      var key := CanUseIdIndex(table, stmt.where.value);
      if key.Some? {
        collected := CollectRowsById(table, stmt.where.value, key.value, indices.value);
        usedIdIndex := true;
      } else {
        collected := CollectRowsByScan(table, stmt.where, indices.value);
      }
    }
    hide Projection, Filtered, AllProjected, FirstNamed;
    return if collected.None? then Failure("Failed to collect SELECT rows.")
           else Selected(headers, collected.value, usedIdIndex);
  }

  /** After activation, the checked load is the plain one. */
  lemma ActivatedLoads(r: Runtime, files: map<string, File>, name: string)
    requires name != "" && RuntimeOk(r)
    ensures var active := Activate(r, name);
            && active.name != "" && SameName(active.name, name) && RuntimeOk(active)
            && LoadChecked(active, files, name) == Load(active, files, name)
            && SameName(Load(active, files, name).1.name, name) && Load(active, files, name).1.name != ""
  {
  }

  /** A second load right after a successful one changes nothing. */
  lemma LoadTwice(r: Runtime, files: map<string, File>, name: string)
    requires name != "" && RuntimeOk(r) && SameName(r.name, name) && Load(r, files, name).0
    ensures var loaded := Load(r, files, name).1;
            Load(loaded, files, name) == (true, loaded)
  {
  }

  lemma ActivateAgrees(r: Runtime, files: map<string, File>, name: string)
    requires HeaderKept(r, files)
    ensures HeaderKept(Activate(r, name), files)
  {
  }

  /** `executor_execute_select`. */
  method ExecuteSelectStatement(table: TableRuntime, disk: Disk, stmt: SelectStatement) returns (result: DbResult)
    requires table.Valid() && stmt.table != "" && disk !in table.index.repr
    modifies table, table.index, table.index.repr
    ensures table.Valid() && fresh(table.index.repr - old(table.index.repr))
    ensures (State(table.Abs(), disk.files), result) == ExecuteSelect(State(old(table.Abs()), old(disk.files)), stmt)
  {
    hide BPTree.Valid, IdsOk, IndexMatches, NextIdOf, FirstNamed, SelectFrom;
    ActivatedLoads(table.Abs(), disk.files, stmt.table);
    table.Activate(stmt.table);
    var loadOk := table.LoadIfNeeded(disk, stmt.table);
    if !loadOk {
      return Failure("Failed to load table from storage.");
    }
    if !table.loaded {
      assert Load(Activate(old(table.Abs()), stmt.table), old(disk.files), stmt.table) == (true, table.Abs());
      assert disk.files == old(disk.files);
      return NotFound(stmt.table);
    }
    result := SelectLoaded(table, stmt);
  }

  /** `executor_execute_insert`. */
  method ExecuteInsertStatement(table: TableRuntime, disk: Disk, stmt: InsertStatement) returns (result: DbResult)
    requires table.Valid() && FitsInsert(stmt) && disk !in table.index.repr && HeaderKept(table.Abs(), disk.files)
    modifies table, table.index, table.index.repr, disk
    ensures table.Valid() && fresh(table.index.repr - old(table.index.repr))
    ensures (State(table.Abs(), disk.files), result) == ExecuteInsert(State(old(table.Abs()), old(disk.files)), stmt)
  {
    hide BPTree.Valid, IdsOk, IndexMatches, NextIdOf, FirstNamed, InsertRow;
    ActivatedLoads(table.Abs(), disk.files, stmt.table);
    ActivateAgrees(table.Abs(), disk.files, stmt.table);
    table.Activate(stmt.table);
    ghost var active := table.Abs();
    var loadOk := table.LoadIfNeeded(disk, stmt.table);
    if !loadOk {
      return Failure("Failed to load table from storage.");
    }
    LoadAgrees(active, disk.files, stmt.table);
    LoadTwice(active, disk.files, stmt.table);
    var insertOk, rowIndex := table.InsertRow(disk, stmt);
    if !insertOk {
      return Failure("Failed to insert row into " + stmt.table + ".");
    }
    return EngineModel.Inserted(stmt.table);
  }

  /** `executor_execute_into_result`: the engine on the heap computes the state
      transition and the answer of the model. */
  method ExecuteStatement(table: TableRuntime, disk: Disk, stmt: Statement) returns (result: DbResult)
    requires table.Valid() && Fits(stmt) && disk !in table.index.repr && HeaderKept(table.Abs(), disk.files)
    modifies table, table.index, table.index.repr, disk
    ensures table.Valid() && fresh(table.index.repr - old(table.index.repr))
    ensures (State(table.Abs(), disk.files), result) == Execute(State(old(table.Abs()), old(disk.files)), stmt)
  {
    hide TableRuntime.Valid, ExecuteInsert, ExecuteSelect;
    match stmt
    case Insert(insert) => result := ExecuteInsertStatement(table, disk, insert);
    case Select(select) => result := ExecuteSelectStatement(table, disk, select);
    case Delete(_) => result := Failure("DELETE is not supported in memory runtime mode.");
  }
}
