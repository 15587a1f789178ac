/** What the engine answers, in terms of the table and the statement alone: which columns
    a SELECT shows, which rows, and which inserts succeed. Nothing here refers to the
    engine's own lookup, comparison or schema functions. */
module Answers {
  import opened Text
  import opened Alphabet
  import opened Numbers
  import opened Statements
  import opened Storage
  import opened EngineModel

  // ---- conditions -------------------------------------------------------------------------

  /** The cell says a number. */
  ghost predicate SaysNumber(cell: string) {
    exists x :: Spells(cell, x)
  }

  ghost predicate SmallerNumber(a: string, b: string) {
    exists x, y :: Spells(a, x) && Spells(b, y) && Within64(x) < Within64(y)
  }

  /** `a` is the smaller value: by number when both say one, else as a text. */
  ghost predicate Smaller(a: string, b: string) {
    if SaysNumber(a) && SaysNumber(b) then SmallerNumber(a, b) else Before(a, b)
  }

  ghost predicate Meets(cell: string, op: string, value: string) {
    if op == "=" then !Smaller(cell, value) && !Smaller(value, cell)
    else if op == "!=" then Smaller(cell, value) || Smaller(value, cell)
    else if op == "<" then Smaller(cell, value)
    else if op == "<=" then !Smaller(value, cell)
    else if op == ">" then Smaller(value, cell)
    else op == ">=" && !Smaller(cell, value)
  }

  lemma CompareIsSmaller(a: string, b: string)
    ensures Compare(a, b) < 0 <==> Smaller(a, b)
    ensures Compare(a, b) > 0 <==> Smaller(b, a)
  {
    hide Compare, Spells, Before, Within64;
    if SaysNumber(a) && SaysNumber(b) {
      var x :| Spells(a, x);
      var y :| Spells(b, y);
      ComparesNumbers(a, b, x, y);
      forall v, w | Spells(a, v) && Spells(b, w)
        ensures (Within64(v) < Within64(w) <==> Compare(a, b) < 0) && (Within64(w) < Within64(v) <==> Compare(a, b) > 0)
      {
        ComparesNumbers(a, b, v, w);
      }
    } else {
      ComparesTexts(a, b);
    }
  }

  lemma OpHoldsExactly(cell: string, op: string, value: string)
    ensures OpHolds(Compare(cell, value), op) <==> Meets(cell, op, value)
  {
    hide Compare, Smaller;
    CompareIsSmaller(cell, value);
  }

  // ---- columns ------------------------------------------------------------------------------

  /** Column `c` is the first one of that name. */
  ghost predicate IsColumn(columns: seq<string>, name: string, c: nat) {
    c < |columns| && Alike(columns[c], name) && forall j :: 0 <= j < c ==> !Alike(columns[j], name)
  }

  ghost predicate HasColumn(columns: seq<string>, name: string) {
    exists c :: 0 <= c < |columns| && Alike(columns[c], name)
  }

  lemma FirstNamedIs(columns: seq<string>, name: string)
    ensures FirstNamed(columns, name).Some? <==> HasColumn(columns, name)
    ensures forall c: nat :: IsColumn(columns, name, c) <==> FirstNamed(columns, name) == Some(c)
  {
    hide Alike, SameName, FirstNamed;
    forall c | 0 <= c < |columns| ensures SameName(columns[c], name) <==> Alike(columns[c], name) {
      SameNameExactly(columns[c], name);
    }
    var found := FirstNamed(columns, name);
    forall c: nat | IsColumn(columns, name, c) ensures found == Some(c) {
      assert SameName(columns[c], name);
    }
  }

  /** The names are those of the columns after the first, in order and in any case. */
  ghost predicate NamesTheRest(columns: seq<string>, names: seq<string>) {
    && 0 < |names| == |columns| - 1
    && forall i :: 0 <= i < |names| ==> Alike(columns[i + 1], names[i])
  }

  lemma NamesAlike(a: seq<string>, b: seq<string>)
    requires |a| == |b|
    ensures (forall i :: 0 <= i < |a| ==> SameName(a[i], b[i])) <==> forall i :: 0 <= i < |a| ==> Alike(a[i], b[i])
  {
    hide SameName, Alike;
    forall i | 0 <= i < |a| ensures SameName(a[i], b[i]) <==> Alike(a[i], b[i]) {
      SameNameExactly(a[i], b[i]);
    }
  }

  lemma SchemaMatchesExactly(columns: seq<string>, insert: InsertStatement)
    ensures SchemaMatches(columns, insert) <==> NamesTheRest(columns, insert.columns)
  {
    hide SameName, Alike;
    if |insert.columns| == |columns| - 1 {
      NamesAlike(columns[1..], insert.columns);
      assert forall i :: 0 <= i < |insert.columns| ==> columns[1..][i] == columns[i + 1];
    }
  }

  // ---- SELECT ----------------------------------------------------------------------------------

  /** The row meets the condition, if there is one, in the first column of its name. */
  ghost predicate RowMeets(columns: seq<string>, row: seq<string>, where: Option<WhereClause>)
    requires |row| == |columns|
  {
    where.Some? ==>
      exists c: nat :: IsColumn(columns, where.value.column, c) && Meets(row[c], where.value.op, where.value.value)
  }

  /** `shown` are the columns the statement asks for, all of them when it names none. */
  ghost predicate ShowsColumns(columns: seq<string>, stmt: SelectStatement, shown: seq<nat>) {
    && (forall k :: 0 <= k < |shown| ==> shown[k] < |columns|)
    && if stmt.columns == [] then |shown| == |columns| && forall k :: 0 <= k < |shown| ==> shown[k] == k
       else |shown| == |stmt.columns| && forall k :: 0 <= k < |shown| ==> IsColumn(columns, stmt.columns[k], shown[k])
  }

  /** `picked` are the rows that meet the condition, in the order of the table. */
  ghost predicate PicksRows(columns: seq<string>, rows: seq<seq<string>>, stmt: SelectStatement, picked: seq<nat>)
    requires Rectangular(rows, |columns|)
  {
    && Increasing(picked) && (forall i :: 0 <= i < |picked| ==> picked[i] < |rows|)
    && forall r :: 0 <= r < |rows| ==> (r in picked <==> RowMeets(columns, rows[r], stmt.where))
  }

  /** The result has one header a shown column and one row a picked row, cell by cell. */
  predicate HasCells(columns: seq<string>, rows: seq<seq<string>>, shown: seq<nat>, picked: seq<nat>, result: DbResult)
    requires Rectangular(rows, |columns|)
    requires (forall k :: 0 <= k < |shown| ==> shown[k] < |columns|)
      && (forall i :: 0 <= i < |picked| ==> picked[i] < |rows|)
  {
    && |result.columns| == |shown| && (forall k :: 0 <= k < |shown| ==> result.columns[k] == columns[shown[k]])
    && |result.rows| == |picked| == result.rowsAffected
    && forall i :: 0 <= i < |picked| ==>
         |result.rows[i]| == |shown| && forall k :: 0 <= k < |shown| ==> result.rows[i][k] == rows[picked[i]][shown[k]]
  }

  function Shifted(xs: seq<nat>): (ys: seq<nat>)
    ensures |ys| == |xs| && forall i :: 0 <= i < |xs| ==> ys[i] == xs[i] + 1
  {
    seq(|xs|, i requires 0 <= i < |xs| => xs[i] + 1)
  }

  lemma InShifted(xs: seq<nat>, x: nat)
    ensures x + 1 in Shifted(xs) <==> x in xs
  {
    if x in xs {
      var i :| 0 <= i < |xs| && xs[i] == x;
      assert Shifted(xs)[i] == x + 1;
    }
  }

  lemma FilteredFirst(rows: seq<seq<string>>, width: nat, c: nat, where: WhereClause, shown: seq<nat>)
    requires Rectangular(rows, width) && rows != [] && c < width
    requires forall k :: 0 <= k < |shown| ==> shown[k] < width
    ensures Filtered(rows, width, c, where, shown)
            == (if Meets(rows[0][c], where.op, where.value) then [Project(rows[0], shown)] else [])
               + Filtered(rows[1..], width, c, where, shown)
  {
    hide Meets, OpHolds, Compare, Project;
    OpHoldsExactly(rows[0][c], where.op, where.value);
  }

  /** `found` are the picked rows, projected. */
  predicate AreProjected(rows: seq<seq<string>>, width: nat, shown: seq<nat>, picked: seq<nat>,
                         found: seq<seq<string>>)
    requires Rectangular(rows, width) && forall k :: 0 <= k < |shown| ==> shown[k] < width
  {
    && (forall i :: 0 <= i < |picked| ==> picked[i] < |rows|)
    && |found| == |picked| && forall i :: 0 <= i < |picked| ==> found[i] == Project(rows[picked[i]], shown)
  }

  lemma ProjectedLater(rows: seq<seq<string>>, width: nat, shown: seq<nat>, later: seq<nat>, found: seq<seq<string>>)
    requires Rectangular(rows, width) && rows != [] && forall k :: 0 <= k < |shown| ==> shown[k] < width
    requires AreProjected(rows[1..], width, shown, later, found)
    ensures AreProjected(rows, width, shown, Shifted(later), found)
    ensures AreProjected(rows, width, shown, [0] + Shifted(later), [Project(rows[0], shown)] + found)
  {
    hide Project;
  }

  predicate Increasing(xs: seq<nat>) {
    forall i, j :: 0 <= i < j < |xs| ==> xs[i] < xs[j]
  }

  lemma ShiftedIncreases(xs: seq<nat>)
    requires Increasing(xs)
    ensures Increasing(Shifted(xs)) && Increasing([0] + Shifted(xs))
  {
  }

  lemma {:induction false} FilteredPicks(rows: seq<seq<string>>, width: nat, c: nat, where: WhereClause,
                                         shown: seq<nat>) returns (picked: seq<nat>)
    requires Rectangular(rows, width) && c < width && forall k :: 0 <= k < |shown| ==> shown[k] < width
    ensures Increasing(picked)
    ensures AreProjected(rows, width, shown, picked, Filtered(rows, width, c, where, shown))
    ensures forall r :: 0 <= r < |rows| ==> (r in picked <==> Meets(rows[r][c], where.op, where.value))
  {
    hide Meets, Project, Filtered, AreProjected, Increasing, Shifted;
    if rows == [] {
      picked := [];
      NothingPicked(rows, width, c, where, shown);
    } else {
      var later := FilteredPicks(rows[1..], width, c, where, shown);
      FilteredFirst(rows, width, c, where, shown);
      ProjectedLater(rows, width, shown, later, Filtered(rows[1..], width, c, where, shown));
      ShiftedIncreases(later);
      var first := Meets(rows[0][c], where.op, where.value);
      picked := if first then [0] + Shifted(later) else Shifted(later);
      assert first || [] + Filtered(rows[1..], width, c, where, shown) == Filtered(rows[1..], width, c, where, shown);
      forall r | 0 <= r < |rows| ensures r in picked <==> Meets(rows[r][c], where.op, where.value) {
        if r > 0 {
          assert rows[r] == rows[1..][r - 1];
          InShifted(later, r - 1);
        } else {
          NoZero(later);
        }
      }
    }
  }

  lemma NothingPicked(rows: seq<seq<string>>, width: nat, c: nat, where: WhereClause, shown: seq<nat>)
    requires rows == [] && c < width && forall k :: 0 <= k < |shown| ==> shown[k] < width
    ensures Increasing([]) && AreProjected(rows, width, shown, [], Filtered(rows, width, c, where, shown))
  {
  }

  lemma NoZero(xs: seq<nat>)
    ensures 0 !in Shifted(xs)
  {
  }

  /** Exactly when a SELECT succeeds: every column it names is there, and the column of
      its condition unless the table is empty. */
  lemma SelectSucceedsExactly(columns: seq<string>, rows: seq<seq<string>>, stmt: SelectStatement)
    requires Rectangular(rows, |columns|)
    ensures SelectFrom(columns, rows, stmt).success <==>
            && (forall k :: 0 <= k < |stmt.columns| ==> HasColumn(columns, stmt.columns[k]))
            && (stmt.where.Some? && rows != [] ==> HasColumn(columns, stmt.where.value.column))
  {
    hide HasColumn, FirstNamed, Filtered, AllProjected, Project, IsIdLookup;
    forall k | 0 <= k < |stmt.columns|
      ensures FirstNamed(columns, stmt.columns[k]).Some? <==> HasColumn(columns, stmt.columns[k])
    {
      FirstNamedIs(columns, stmt.columns[k]);
    }
    if stmt.where.Some? {
      FirstNamedIs(columns, stmt.where.value.column);
    }
  }

  /** Which failure a SELECT that does not succeed reports. */
  lemma SelectFailsAs(columns: seq<string>, rows: seq<seq<string>>, stmt: SelectStatement)
    requires Rectangular(rows, |columns|) && !SelectFrom(columns, rows, stmt).success
    ensures SelectFrom(columns, rows, stmt)
            == DbResult(Failed, false, [], [], 0, false,
                        if forall k :: 0 <= k < |stmt.columns| ==> HasColumn(columns, stmt.columns[k])
                        then "Failed to collect SELECT rows." else "Failed to prepare SELECT projection.")
  {
    hide HasColumn, FirstNamed, Filtered, AllProjected, Project, IsIdLookup;
    forall k | 0 <= k < |stmt.columns|
      ensures FirstNamed(columns, stmt.columns[k]).Some? <==> HasColumn(columns, stmt.columns[k])
    {
      FirstNamedIs(columns, stmt.columns[k]);
    }
  }

  lemma ProjectionShows(columns: seq<string>, stmt: SelectStatement) returns (shown: seq<nat>)
    requires Projection(columns, stmt.columns).Some?
    ensures Projection(columns, stmt.columns) == Some(shown) && ShowsColumns(columns, stmt, shown)
  {
    hide IsColumn, FirstNamed;
    shown := Projection(columns, stmt.columns).value;
    if stmt.columns != [] {
      forall k | 0 <= k < |stmt.columns| ensures IsColumn(columns, stmt.columns[k], shown[k]) {
        FirstNamedIs(columns, stmt.columns[k]);
      }
    }
  }

  lemma RowMeetsIn(columns: seq<string>, row: seq<string>, where: WhereClause, c: nat)
    requires |row| == |columns| && IsColumn(columns, where.column, c)
    ensures RowMeets(columns, row, Some(where)) <==> Meets(row[c], where.op, where.value)
  {
    hide Alike, Meets;
  }

  lemma CellsOf(columns: seq<string>, rows: seq<seq<string>>, shown: seq<nat>, picked: seq<nat>, result: DbResult)
    requires Rectangular(rows, |columns|) && forall k :: 0 <= k < |shown| ==> shown[k] < |columns|
    requires AreProjected(rows, |columns|, shown, picked, result.rows) && result.columns == Project(columns, shown)
    requires result.rowsAffected == |result.rows|
    ensures HasCells(columns, rows, shown, picked, result)
  {
  }

  /** What a successful SELECT answers: the columns it names, and of those the cells of
      the rows that meet its condition, in the order of the table. */
  lemma SelectAnswers(columns: seq<string>, rows: seq<seq<string>>, stmt: SelectStatement)
    returns (shown: seq<nat>, picked: seq<nat>)
    requires Rectangular(rows, |columns|) && SelectFrom(columns, rows, stmt).success
    ensures ShowsColumns(columns, stmt, shown) && PicksRows(columns, rows, stmt, picked)
    ensures HasCells(columns, rows, shown, picked, SelectFrom(columns, rows, stmt))
  {
    hide IsColumn, FirstNamed, Filtered, Meets, ShowsColumns, IsIdLookup, Projection, RowMeets, Project, HasCells;
    shown := ProjectionShows(columns, stmt);
    ShownAreColumns(columns, stmt, shown);
    var result := SelectFrom(columns, rows, stmt);
    if stmt.where.Some? && rows != [] {
      var where := stmt.where.value;
      FirstNamedIs(columns, where.column);
      var c := FirstNamed(columns, where.column).value;
      picked := FilteredPicks(rows, |columns|, c, where, shown);
      forall r | 0 <= r < |rows| ensures r in picked <==> RowMeets(columns, rows[r], stmt.where) {
        RowMeetsIn(columns, rows[r], where, c);
      }
    } else {
      picked := UpTo(|rows|);
      forall r | 0 <= r < |rows| ensures r in picked && RowMeets(columns, rows[r], stmt.where) {
        assert picked[r] == r;
        NoCondition(columns, rows[r]);
      }
    }
    CellsOf(columns, rows, shown, picked, result);
  }

  lemma NoCondition(columns: seq<string>, row: seq<string>)
    requires |row| == |columns|
    ensures RowMeets(columns, row, None)
  {
  }

  lemma ShownAreColumns(columns: seq<string>, stmt: SelectStatement, shown: seq<nat>)
    requires ShowsColumns(columns, stmt, shown)
    ensures forall k :: 0 <= k < |shown| ==> shown[k] < |columns|
  {
  }

  // ---- numbers ------------------------------------------------------------------------------------

  predicate HoldsOf(x: int, op: string, y: int) {
    if op == "=" then x == y
    else if op == "!=" then x != y
    else if op == "<" then x < y
    else if op == "<=" then x <= y
    else if op == ">" then x > y
    else op == ">=" && x >= y
  }

  predicate Is64Bit(x: int) {
    -9223372036854775808 <= x <= 9223372036854775807
  }

  lemma MeetsOfNumbers(cell: string, op: string, value: string, x: int, y: int)
    requires Spells(cell, x) && Spells(value, y) && Is64Bit(x) && Is64Bit(y)
    ensures Meets(cell, op, value) <==> HoldsOf(x, op, y)
  {
    hide Compare, Smaller, Spells;
    CompareIsSmaller(cell, value);
    ComparesNumbers(cell, value, x, y);
  }

  /** A condition on a column of numbers, in terms of the numbers: `c op y` selects the
      rows whose number stands in that relation to `y`, however the numbers are written. */
  lemma SelectByNumber(columns: seq<string>, rows: seq<seq<string>>, stmt: SelectStatement, c: nat, xs: seq<int>,
                       y: int)
    returns (shown: seq<nat>, picked: seq<nat>)
    requires Rectangular(rows, |columns|) && SelectFrom(columns, rows, stmt).success && stmt.where.Some?
    requires IsColumn(columns, stmt.where.value.column, c) && Spells(stmt.where.value.value, y) && Is64Bit(y)
    requires |xs| == |rows| && forall r :: 0 <= r < |rows| ==> Spells(rows[r][c], xs[r]) && Is64Bit(xs[r])
    ensures ShowsColumns(columns, stmt, shown)
    ensures Increasing(picked) && forall i :: 0 <= i < |picked| ==> picked[i] < |rows|
    ensures forall r :: 0 <= r < |rows| ==> (r in picked <==> HoldsOf(xs[r], stmt.where.value.op, y))
    ensures HasCells(columns, rows, shown, picked, SelectFrom(columns, rows, stmt))
  {
    hide SelectFrom, ShowsColumns, HasCells, Increasing, Meets, Spells, Alike, RowMeets;
    shown, picked := SelectAnswers(columns, rows, stmt);
    var where := stmt.where.value;
    forall r | 0 <= r < |rows| ensures r in picked <==> HoldsOf(xs[r], where.op, y) {
      RowMeetsIn(columns, rows[r], where, c);
      MeetsOfNumbers(rows[r][c], where.op, where.value, xs[r], y);
    }
  }

  // ---- what comes with the rows -----------------------------------------------------------------------

  /** The condition asks for an id that fits an `int`. */
  ghost predicate AsksForId(columns: seq<string>, where: WhereClause) {
    && where.op == "=" && (exists x :: Spells(where.value, x) && 0 <= x <= 2147483647)
    && exists c: nat :: IsColumn(columns, "id", c) && Alike(columns[c], where.column)
  }

  lemma ValidIdExactly(text: string)
    ensures ValidId(text) <==> exists x :: Spells(text, x) && 0 <= x <= 2147483647
  {
    hide Spells, IsIntegerText, ParseInteger;
    IntegerTextsSpell(text);
    forall x | Spells(text, x) ensures ValidId(text) <==> 0 <= x <= 2147483647 {
      SpelledIsRead(text, x);
    }
  }

  /** A successful SELECT reports its rows, and says that it used the id index exactly when
      it asked a table with rows for an id. */
  lemma SelectReports(columns: seq<string>, rows: seq<seq<string>>, stmt: SelectStatement)
    requires Rectangular(rows, |columns|) && SelectFrom(columns, rows, stmt).success
    ensures var result := SelectFrom(columns, rows, stmt);
            && result.kind == SelectDone
            && (result.usedIdIndex <==> rows != [] && stmt.where.Some? && AsksForId(columns, stmt.where.value))
            && result.message == if |result.rows| == 1 then "1 row selected."
                                 else Decimal(|result.rows|) + " rows selected."
  {
    hide FirstNamed, Filtered, AllProjected, Project, Projection, ValidId, IsColumn, Spells, Alike, SameName;
    assert "1" + " row" + "" + " selected." == "1 row selected.";
    assert forall text: string :: text + " row" + "s" + " selected." == text + " rows selected.";
    if stmt.where.Some? {
      ValidIdExactly(stmt.where.value.value);
      FirstNamedIs(columns, "id");
      forall c: nat | c < |columns|
        ensures SameName(columns[c], stmt.where.value.column) <==> Alike(columns[c], stmt.where.value.column)
      {
        SameNameExactly(columns[c], stmt.where.value.column);
      }
    }
  }
}
