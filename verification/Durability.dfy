/** What a client can rely on across statements: a row once inserted is found by its id
    for ever, whatever statements on whatever tables follow, and conditions cut a table
    as comparisons should. */
module Durability {
  import opened Text
  import opened Statements
  import opened Storage
  import opened EngineModel
  import opened WriteThrough
  import opened EngineInvariant
  import opened Naive
  import opened Executor

  // ---- rows are never lost -----------------------------------------------------------

  /** The tables of `db` are still there, with the same columns and their rows first. */
  predicate Extends(db: Db, db': Db) {
    forall name :: name in db && db[name].Table? ==>
      name in db' && db'[name].Table? && db'[name].columns == db[name].columns && db[name].rows <= db'[name].rows
  }

  lemma AnswerExtends(db: Db, stmt: Statement)
    requires Fits(stmt)
    ensures Extends(db, Answer(db, stmt).0)
  {
    hide SelectFrom, SchemaMatches;
  }

  lemma {:induction false} NaiveRunExtends(db: Db, stmts: seq<Statement>)
    requires AllFit(stmts)
    ensures Extends(db, NaiveRun(db, stmts).0)
    decreases |stmts|
  {
    if stmts != [] {
      hide Answer;
      AnswerExtends(db, stmts[0]);
      NaiveRunExtends(Answer(db, stmts[0]).0, stmts[1..]);
    }
  }

  /** No safe run of the engine loses or changes a row of any table file. */
  lemma RunExtends(s: State, stmts: seq<Statement>, names: set<string>)
    requires Coherent(s, names) && OneSpelling(names) && AllAdmissible(stmts, names) && SafeRun(DbOf(s.files), stmts)
    ensures EngineOk(s) && Extends(DbOf(s.files), DbOf(Run(s, stmts).0.files))
  {
    hide Coherent, DbOf, Run, NaiveRun, SafeRun, EngineOk;
    RunRefines(s, stmts, names);
    NaiveRunExtends(DbOf(s.files), stmts);
  }

  // ---- a row is found by its id ---------------------------------------------------------

  function ById(table: string, n: nat): (stmt: Statement) {
    Select(SelectStatement(table, [], Some(WhereClause("id", "=", Decimal(n)))))
  }

  lemma ByIdFits(table: string, n: nat)
    requires FitsTable(table) && n <= INT_MAX
    ensures Fits(ById(table, n)) && forall db: Db :: Survives(db, ById(table, n))
  {
    DecimalLength(n);
  }

  lemma ProjectAll(row: seq<string>)
    ensures Project(row, UpTo(|row|)) == row
  {
  }

  /** Selecting by the id of row `at` answers exactly that row. */
  lemma SelectByIdFinds(columns: seq<string>, rows: seq<seq<string>>, table: string, n: nat, at: nat)
    requires TableOk(columns, rows) && FirstNamed(columns, "id") == Some(0)
    requires at < |rows| && n <= INT_MAX && rows[at][0] == Decimal(n)
    ensures SelectFrom(columns, rows, ById(table, n).select) == Selected(columns, [rows[at]], true)
  {
    hide Filtered, NextIdOf, FirstNamed;
    DecimalRoundTrip(n);
    DecimalLength(n);
    var where := WhereClause("id", "=", Decimal(n));
    var indices := UpTo(|columns|);
    forall i | 0 <= i < |rows|
      ensures OpHolds(Compare(rows[i][0], where.value), where.op) <==> i == at
    {
      IdEquality(rows[i][0], where);
    }
    FilteredOne(rows, |columns|, 0, where, indices, at);
    ProjectAll(columns);
    ProjectAll(rows[at]);
  }

  /** The id an insert is given: one more than every id of the table, or 1. */
  function IdGiven(db: Db, insert: InsertStatement): (n: nat) {
    match Lookup(db, insert.table)
    case Some(Table(columns, rows)) =>
      var id := FirstNamed(columns, "id").value;
      NextIdAtLeast(rows, id, 1);
      NextIdOf(rows, id, 1)
    case _ => 1
  }

  /** The runtime gives the insert the same id: its new last row carries it. */
  lemma EngineGivesTheId(s: State, insert: InsertStatement, names: set<string>)
    requires Coherent(s, names) && OneSpelling(names) && Admissible(Insert(insert), names)
    requires Execute(s, Insert(insert)).1.success
    ensures var r := Execute(s, Insert(insert)).0.runtime;
            && r.loaded && r.name == insert.table && r.rows != []
            && r.rows[|r.rows| - 1] == NewRow(IdGiven(DbOf(s.files), insert), insert)
  {
    LoadShowsView(s, names, insert.table);
    hide Load, AfterInsert, CanStart, SchemaMatches, DbOf, IdsOk, NextIdOf;
  }

  /** The columns of the table an insert goes to. */
  function ColumnsFor(db: Db, insert: InsertStatement): (columns: seq<string>) {
    match Lookup(db, insert.table)
    case Some(Table(columns, _)) => columns
    case _ => ["id"] + insert.columns
  }

  /** The table right after a successful insert, in the naive database. */
  lemma InsertedAtTheEnd(db: Db, insert: InsertStatement)
    requires FitsInsert(insert) && Answer(db, Insert(insert)).1.success
    ensures var db', n := Answer(db, Insert(insert)).0, IdGiven(db, insert);
            && insert.table in db' && db'[insert.table].Table? && db'[insert.table].columns == ColumnsFor(db, insert)
            && n <= INT_MAX && FirstNamed(db'[insert.table].columns, "id") == Some(0)
            && db'[insert.table].rows != []
            && db'[insert.table].rows[|db'[insert.table].rows| - 1] == NewRow(n, insert)
  {
    var view := Lookup(db, insert.table);
    if view.Some? && view.value.Table? {
      LongerTableOk(view.value.columns, view.value.rows, insert);
    } else {
      var header := ["id"] + insert.columns;
      assert SameName(header[0], "id");
      assert FirstNamed(header, "id") == Some(0);
    }
  }

  /** An inserted row stays: after any further statements on any tables, a SELECT by the
      id it was given answers exactly that row, through the index. */
  lemma InsertedRowStaysFound(s: State, insert: InsertStatement, later: seq<Statement>, names: set<string>)
    requires Coherent(s, names) && OneSpelling(names) && Admissible(Insert(insert), names)
      && AllAdmissible(later, names)
    requires Execute(s, Insert(insert)).1.success && SafeRun(DbOf(s.files), [Insert(insert)] + later)
    ensures EngineOk(Execute(s, Insert(insert)).0)
    ensures var s', n := Run(Execute(s, Insert(insert)).0, later).0, IdGiven(DbOf(s.files), insert);
            && Coherent(s', names) && Fits(ById(insert.table, n))
            && Execute(s', ById(insert.table, n)).1
              == Selected(ColumnsFor(DbOf(s.files), insert), [NewRow(n, insert)], true)
  {
    hide Coherent, Answer, DbOf, Execute, NaiveRun, Run, SelectFrom, TableOk, EngineOk, Survives, IdGiven, ColumnsFor;
    CoherentIsOk(s, names);
    assert ([Insert(insert)] + later)[1..] == later;
    StatementRefines(s, Insert(insert), names);
    var s1, n := Execute(s, Insert(insert)).0, IdGiven(DbOf(s.files), insert);
    InsertedAtTheEnd(DbOf(s.files), insert);
    RunRefines(s1, later, names);
    RunExtends(s1, later, names);
    var s' := Run(s1, later).0;
    var before, after := DbOf(s1.files)[insert.table], DbOf(s'.files)[insert.table];
    var at := |before.rows| - 1;
    assert after.rows[at] == NewRow(n, insert);
    ByIdFits(insert.table, n);
    StatementRefines(s', ById(insert.table, n), names) by { assert Survives(DbOf(s'.files), ById(insert.table, n)); }
    SelectByIdFinds(after.columns, after.rows, insert.table, n, at);
    AnswerById(DbOf(s'.files), insert.table, n);
  }

  lemma AnswerById(db: Db, table: string, n: nat)
    requires table in db && db[table].Table? && Fits(ById(table, n))
    ensures Answer(db, ById(table, n)).1 == SelectFrom(db[table].columns, db[table].rows, ById(table, n).select)
  {
    hide SelectFrom;
  }

  // ---- conditions cut the table -------------------------------------------------------------

  predicate FitsWidth(indices: seq<nat>, width: nat) {
    forall k :: 0 <= k < |indices| ==> indices[k] < width
  }

  /** The projected rows that satisfy the condition, with their multiplicities. */
  function Picked(rows: seq<seq<string>>, width: nat, c: nat, op: string, value: string,
                  indices: seq<nat>): (picked: multiset<seq<string>>)
    requires Rectangular(rows, width) && c < width && FitsWidth(indices, width)
  {
    multiset(Filtered(rows, width, c, WhereClause("", op, value), indices))
  }

  function PickedHead(row: seq<string>, c: nat, op: string, value: string,
                      indices: seq<nat>): (picked: multiset<seq<string>>)
    requires c < |row| && FitsWidth(indices, |row|)
  {
    if OpHolds(Compare(row[c], value), op) then multiset{Project(row, indices)} else multiset{}
  }

  lemma PickedFirst(rows: seq<seq<string>>, width: nat, c: nat, op: string, value: string, indices: seq<nat>)
    requires Rectangular(rows, width) && c < width && FitsWidth(indices, width) && rows != []
    ensures Picked(rows, width, c, op, value, indices)
            == PickedHead(rows[0], c, op, value, indices) + Picked(rows[1..], width, c, op, value, indices)
  {
    hide Compare, OpHolds, Project;
  }

  lemma Regroup(a: multiset<seq<string>>, b: multiset<seq<string>>, c: multiset<seq<string>>, d: multiset<seq<string>>)
    ensures (a + b) + (c + d) == (a + c) + (b + d)
  {
  }

  lemma AllFirst(rows: seq<seq<string>>, width: nat, indices: seq<nat>)
    requires Rectangular(rows, width) && FitsWidth(indices, width) && rows != []
    ensures multiset(AllProjected(rows, width, indices))
            == multiset{Project(rows[0], indices)} + multiset(AllProjected(rows[1..], width, indices))
  {
    hide Project;
    assert AllProjected(rows, width, indices) == [Project(rows[0], indices)] + AllProjected(rows[1..], width, indices);
  }

  /** Two conditions of which exactly one holds of every sign cut the table in two. */
  lemma {:induction false} OppositesCut(rows: seq<seq<string>>, width: nat, c: nat, a: string, b: string,
                                        value: string, indices: seq<nat>)
    requires Rectangular(rows, width) && c < width && FitsWidth(indices, width)
    requires forall sign :: OpHolds(sign, a) <==> !OpHolds(sign, b)
    ensures Picked(rows, width, c, a, value, indices) + Picked(rows, width, c, b, value, indices)
            == multiset(AllProjected(rows, width, indices))
  {
    if rows != [] {
      hide Compare, OpHolds, Project, Picked, AllProjected;
      OppositesCut(rows[1..], width, c, a, b, value, indices);
      PickedFirst(rows, width, c, a, value, indices);
      PickedFirst(rows, width, c, b, value, indices);
      AllFirst(rows, width, indices);
      HeadsCut(rows[0], c, a, b, value, indices);
      hide PickedHead;
      Regroup(PickedHead(rows[0], c, a, value, indices), Picked(rows[1..], width, c, a, value, indices),
              PickedHead(rows[0], c, b, value, indices), Picked(rows[1..], width, c, b, value, indices));
    }
  }

  lemma HeadsCut(row: seq<string>, c: nat, a: string, b: string, value: string, indices: seq<nat>)
    requires c < |row| && FitsWidth(indices, |row|)
    requires forall sign :: OpHolds(sign, a) <==> !OpHolds(sign, b)
    ensures PickedHead(row, c, a, value, indices) + PickedHead(row, c, b, value, indices)
      == multiset{Project(row, indices)}
  {
    hide Compare, OpHolds, Project;
  }

  /** `<=` selects what `<` and `=` select between them. */
  lemma {:induction false} BelowOrEqual(rows: seq<seq<string>>, width: nat, c: nat, value: string, indices: seq<nat>)
    requires Rectangular(rows, width) && c < width && FitsWidth(indices, width)
    ensures Picked(rows, width, c, "<=", value, indices)
            == Picked(rows, width, c, "<", value, indices) + Picked(rows, width, c, "=", value, indices)
  {
    if rows != [] {
      hide Compare, OpHolds, Project, Picked;
      BelowOrEqual(rows[1..], width, c, value, indices);
      PickedFirst(rows, width, c, "<=", value, indices);
      PickedFirst(rows, width, c, "<", value, indices);
      PickedFirst(rows, width, c, "=", value, indices);
      HeadBelowOrEqual(rows[0], c, value, indices);
      hide PickedHead;
      Regroup(PickedHead(rows[0], c, "<", value, indices), Picked(rows[1..], width, c, "<", value, indices),
              PickedHead(rows[0], c, "=", value, indices), Picked(rows[1..], width, c, "=", value, indices));
    }
  }

  lemma HeadBelowOrEqual(row: seq<string>, c: nat, value: string, indices: seq<nat>)
    requires c < |row| && FitsWidth(indices, |row|)
    ensures PickedHead(row, c, "<=", value, indices)
            == PickedHead(row, c, "<", value, indices) + PickedHead(row, c, "=", value, indices)
  {
    hide Compare, Project;
  }

  /** Every row satisfies exactly one of `<`, `=` and `>`, and each of the other three
      conditions selects exactly the rows that its opposite leaves, whatever columns are
      asked for. */
  lemma ConditionsCutTheTable(rows: seq<seq<string>>, width: nat, c: nat, value: string, indices: seq<nat>)
    requires Rectangular(rows, width) && c < width && FitsWidth(indices, width)
    ensures var all := multiset(AllProjected(rows, width, indices));
            var below, above := Picked(rows, width, c, "<", value, indices),
              Picked(rows, width, c, ">", value, indices);
            var equal := Picked(rows, width, c, "=", value, indices);
            && below + equal + above == all
            && below + Picked(rows, width, c, ">=", value, indices) == all
            && Picked(rows, width, c, "<=", value, indices) + above == all
            && equal + Picked(rows, width, c, "!=", value, indices) == all
  {
    hide Picked, AllProjected;
    BelowOrEqual(rows, width, c, value, indices);
    OppositesCut(rows, width, c, "<", ">=", value, indices);
    OppositesCut(rows, width, c, "<=", ">", value, indices);
    OppositesCut(rows, width, c, "=", "!=", value, indices);
  }
}
