/** Which inserts succeed and what a SELECT answers on the engine, in terms of what the
    files mean and of the statement alone. */
module Acceptance {
  import opened Text
  import opened Alphabet
  import opened Numbers
  import opened Statements
  import opened Storage
  import opened EngineModel
  import opened EngineInvariant
  import opened Naive
  import opened Answers

  /** No column of the statement is called id. */
  ghost predicate LeavesIdOut(names: seq<string>) {
    forall i :: 0 <= i < |names| ==> !Alike(names[i], "id")
  }

  /** No row has the last id. */
  ghost predicate HasIdsLeft(rows: seq<seq<string>>) {
    forall r, x :: 0 <= r < |rows| && |rows[r]| > 0 && Spells(rows[r][0], x) ==> x < 2147483647
  }

  /** The table takes the insert: a missing one as its definition, a usable one when the
      statement names its columns, a broken one never. */
  ghost predicate Takes(view: Option<View>, insert: InsertStatement) {
    match view
    case None => 1 <= |insert.columns| <= 31 && LeavesIdOut(insert.columns)
    case Some(Broken) => false
    case Some(Table(columns, rows)) =>
      NamesTheRest(columns, insert.columns) && LeavesIdOut(insert.columns) && HasIdsLeft(rows)
  }

  lemma NoIdExactly(names: seq<string>)
    ensures LeavesIdOut(names) <==> FirstNamed(names, "id").None?
    ensures LeavesIdOut(names) <==> forall i :: 0 <= i < |names| ==> !SameName(names[i], "id")
  {
    hide SameName, Alike;
    forall i | 0 <= i < |names| ensures SameName(names[i], "id") <==> Alike(names[i], "id") {
      SameNameExactly(names[i], "id");
    }
  }

  lemma IdsLeftExactly(columns: seq<string>, rows: seq<seq<string>>)
    requires TableOk(columns, rows) && FirstNamed(columns, "id") == Some(0)
    ensures HasIdsLeft(rows) <==> NextIdOf(rows, 0, 1) <= INT_MAX
  {
    hide NextIdOf, Spells, ParseInteger, IsIntegerText, FirstNamed;
    NextIdOfIsNextId(rows, 0);
    forall r, x | 0 <= r < |rows| && Spells(rows[r][0], x) ensures ParseInteger(rows[r][0]) == x {
      SpelledIsRead(rows[r][0], x);
    }
    forall r | 0 <= r < |rows| ensures exists x :: Spells(rows[r][0], x) {
      IntegerTextsSpell(rows[r][0]);
    }
  }

  lemma TakenExactly(view: Option<View>, insert: InsertStatement)
    requires |insert.values| == |insert.columns|
    ensures InsertInto(view, insert).Some? <==> Takes(view, insert)
  {
    hide SchemaMatches, LeavesIdOut, NamesTheRest, HasIdsLeft, FirstNamed, NextIdOf, IdsOk;
    NoIdExactly(insert.columns);
    if view.Some? && view.value.Table? {
      SchemaMatchesExactly(view.value.columns, insert);
      if SchemaMatches(view.value.columns, insert) && FirstNamed(insert.columns, "id").None? {
        IdIsFirst(view.value.columns, insert);
        IdsLeftExactly(view.value.columns, view.value.rows);
      }
    }
  }

  /** On every coherent state an insert succeeds if and only if the table its file means
      takes it. */
  lemma InsertSucceedsExactly(s: State, insert: InsertStatement, names: set<string>)
    requires Coherent(s, names) && OneSpelling(names) && Admissible(Insert(insert), names)
    ensures Execute(s, Insert(insert)).1.success <==> Takes(Lookup(DbOf(s.files), insert.table), insert)
  {
    hide Coherent, Execute, Takes, DbOf, Survives, InsertInto;
    StatementRefinesExactly(s, Insert(insert), names);
    TakenExactly(Lookup(DbOf(s.files), insert.table), insert);
    if Lookup(DbOf(s.files), insert.table) == Some(Broken) {
      BrokenTakesNothing(insert);
    }
  }

  lemma BrokenTakesNothing(insert: InsertStatement)
    ensures !Takes(Some(Broken), insert)
  {
  }

  /** The letter case of the column names does not matter: neither for success nor for
      anything else in the answer. */
  lemma RespelledColumns(s: State, insert: InsertStatement, columns: seq<string>, names: set<string>)
    requires Coherent(s, names) && OneSpelling(names) && Admissible(Insert(insert), names)
    requires |columns| == |insert.columns| && forall i :: 0 <= i < |columns| ==> Alike(columns[i], insert.columns[i])
    ensures FitsInsert(insert.(columns := columns))
    ensures Execute(s, Insert(insert.(columns := columns))).1 == Execute(s, Insert(insert)).1
  {
    var respelled := insert.(columns := columns);
    hide Coherent, Execute, Takes, DbOf, Survives, InsertInto, Alike;
    forall i | 0 <= i < |columns| ensures |columns[i]| == |insert.columns[i]| {
      AlikeLength(columns[i], insert.columns[i]);
    }
    StatementRefinesExactly(s, Insert(insert), names);
    StatementRefinesExactly(s, Insert(respelled), names);
    var view := Lookup(DbOf(s.files), insert.table);
    TakenExactly(view, insert);
    TakenExactly(view, respelled);
    TakesRespelled(view, insert, columns);
  }

  lemma AlikeLength(a: string, b: string)
    requires Alike(a, b)
    ensures |a| == |b|
  {
  }

  lemma TakesRespelled(view: Option<View>, insert: InsertStatement, columns: seq<string>)
    requires |columns| == |insert.columns| && forall i :: 0 <= i < |columns| ==> Alike(columns[i], insert.columns[i])
    ensures Takes(view, insert.(columns := columns)) <==> Takes(view, insert)
  {
    hide Alike, HasIdsLeft;
    forall i, name | 0 <= i < |columns| ensures Alike(columns[i], name) <==> Alike(insert.columns[i], name) {
      AlikeBoth(columns[i], insert.columns[i], name);
    }
    forall i, name | 0 <= i < |columns| ensures Alike(name, columns[i]) <==> Alike(name, insert.columns[i]) {
      AlikeBoth(columns[i], insert.columns[i], name);
    }
  }

  lemma AlikeBoth(a: string, b: string, name: string)
    requires Alike(a, b)
    ensures Alike(a, name) <==> Alike(b, name)
    ensures Alike(name, a) <==> Alike(name, b)
  {
    hide Alike, Upper;
    SameNameExactly(a, b);
    SameNameExactly(a, name);
    SameNameExactly(b, name);
    SameNameExactly(name, a);
    SameNameExactly(name, b);
  }

  // ---- SELECT on the engine -----------------------------------------------------------------

  /** The engine's answer to a SELECT: a failure for a missing or broken table, and for a
      usable one the columns and rows that the statement asks for. */
  lemma EngineSelects(s: State, stmt: SelectStatement, names: set<string>)
    returns (shown: seq<nat>, picked: seq<nat>)
    requires Coherent(s, names) && OneSpelling(names) && Admissible(Select(stmt), names)
    ensures var view, result := Lookup(DbOf(s.files), stmt.table), Execute(s, Select(stmt)).1;
            match view
            case None => !result.success && result.message == "Table '" + stmt.table + "' not found in runtime."
            case Some(Broken) => !result.success && result.message == "Failed to load table from storage."
            case Some(Table(columns, rows)) =>
              && (result.success <==>
                    && (forall k :: 0 <= k < |stmt.columns| ==> HasColumn(columns, stmt.columns[k]))
                    && (stmt.where.Some? && rows != [] ==> HasColumn(columns, stmt.where.value.column)))
              && (!result.success ==>
                    result == DbResult(Failed, false, [], [], 0, false,
                                       if forall k :: 0 <= k < |stmt.columns| ==> HasColumn(columns, stmt.columns[k])
                                       then "Failed to collect SELECT rows."
                                       else "Failed to prepare SELECT projection."))
              && (result.success ==>
                    && ShowsColumns(columns, stmt, shown) && PicksRows(columns, rows, stmt, picked)
                    && HasCells(columns, rows, shown, picked, result))
  {
    hide Coherent, Execute, DbOf, Survives, SelectFrom, ShowsColumns, PicksRows, HasCells, HasColumn;
    StatementRefinesExactly(s, Select(stmt), names);
    var view := Lookup(DbOf(s.files), stmt.table);
    shown, picked := [], [];
    if view.Some? && view.value.Table? {
      var columns, rows := view.value.columns, view.value.rows;
      SelectSucceedsExactly(columns, rows, stmt);
      if SelectFrom(columns, rows, stmt).success {
        shown, picked := SelectAnswers(columns, rows, stmt);
      } else {
        SelectFailsAs(columns, rows, stmt);
      }
    }
  }

  /** The engine's answer to an INSERT: one row, or the reason why not. */
  lemma EngineInserts(s: State, insert: InsertStatement, names: set<string>)
    requires Coherent(s, names) && OneSpelling(names) && Admissible(Insert(insert), names)
    ensures var view, result := Lookup(DbOf(s.files), insert.table), Execute(s, Insert(insert)).1;
            result == if Takes(view, insert)
                      then DbResult(InsertDone, true, [], [], 1, false, "1 row inserted into " + insert.table + ".")
                      else if view == Some(Broken)
                      then DbResult(Failed, false, [], [], 0, false, "Failed to load table from storage.")
                      else DbResult(Failed, false, [], [], 0, false,
                                    "Failed to insert row into " + insert.table + ".")
  {
    hide Coherent, Execute, Takes, DbOf, Survives, InsertInto;
    StatementRefinesExactly(s, Insert(insert), names);
    TakenExactly(Lookup(DbOf(s.files), insert.table), insert);
    BrokenTakesNothing(insert);
  }

  /** The engine's answer to a DELETE. */
  lemma EngineDeletes(s: State, stmt: DeleteStatement)
    requires RuntimeOk(s.runtime) && Fits(Delete(stmt))
    ensures Execute(s, Delete(stmt))
            == (s, DbResult(Failed, false, [], [], 0, false, "DELETE is not supported in memory runtime mode."))
  {
  }
}
