/** What a table file must be to load, and which rows storage appends to it, in terms of
    its lines and of the loaded table. */
module Files {
  import opened Text
  import opened Alphabet
  import opened Numbers
  import opened Csv
  import opened Statements
  import opened Storage
  import opened EngineModel
  import opened Naive
  import opened Answers

  // ---- loading ------------------------------------------------------------------------------

  /** The line is skipped, or it is short enough and has `width` cells. */
  predicate LineLoads(line: string, width: nat) {
    && |line| <= 16382
    && (IsSkipped(line) || (ParseLine(line).Some? && |ParseLine(line).value| == width))
  }

  predicate IsSkipped(line: string) {
    line == "" || line[0] == '\r'
  }

  /** The rows are the cells of the picked lines, one after another. */
  predicate AreRowsOf(lines: seq<string>, picked: seq<nat>, rows: seq<seq<string>>) {
    && Increasing(picked) && |rows| == |picked|
    && forall k :: 0 <= k < |picked| ==> picked[k] < |lines| && ParseLine(lines[picked[k]]) == Some(rows[k])
  }

  lemma RowsLater(lines: seq<string>, picked: seq<nat>, rows: seq<seq<string>>)
    requires lines != [] && AreRowsOf(lines[1..], picked, rows)
    ensures AreRowsOf(lines, Shifted(picked), rows)
    ensures ParseLine(lines[0]).Some? ==>
              AreRowsOf(lines, [0] + Shifted(picked), [ParseLine(lines[0]).value] + rows)
  {
    hide ParseLine;
    ShiftedIncreases(picked);
  }

  /** Exactly when the data lines load: none is too long, and every one that is not
      skipped has the right number of cells. */
  lemma {:induction false} LoadsExactly(lines: seq<string>, width: nat) returns (picked: seq<nat>)
    ensures LoadRows(lines, width).Some? <==> forall i :: 0 <= i < |lines| ==> LineLoads(lines[i], width)
    ensures LoadRows(lines, width).Some? ==>
              && AreRowsOf(lines, picked, LoadRows(lines, width).value)
              && forall i :: 0 <= i < |lines| ==> (i in picked <==> !IsSkipped(lines[i]))
  {
    hide ParseLine, AreRowsOf;
    if lines == [] {
      picked := [];
      assert AreRowsOf([], [], []) by { NoRows(); }
    } else {
      var later := LoadsExactly(lines[1..], width);
      assert forall i :: 0 < i < |lines| ==> lines[i] == lines[1..][i - 1];
      picked := if IsSkipped(lines[0]) then Shifted(later) else [0] + Shifted(later);
      if LoadRows(lines, width).Some? {
        RowsLater(lines, later, LoadRows(lines[1..], width).value);
        forall i | 0 <= i < |lines| ensures i in picked <==> !IsSkipped(lines[i]) {
          if i > 0 {
            InShifted(later, i - 1);
          } else {
            NoZero(later);
          }
        }
      }
    }
  }

  lemma NoRows()
    ensures AreRowsOf([], [], [])
  {
  }

  /** Exactly which columns the first line gives: at most 32 names of at most 63 characters. */
  lemma HeaderExactly(file: File, columns: seq<string>)
    requires file != []
    ensures ReadHeader(file) == Some(columns) <==>
            && |file[0]| <= 16382 && ParseLine(file[0]) == Some(columns)
            && |columns| <= 32 && forall i :: 0 <= i < |columns| ==> |columns[i]| <= 63
  {
    hide ParseLine;
  }

  // ---- keys and ids ----------------------------------------------------------------------------

  /** The key scan succeeds exactly when the lines load and no row has the key. */
  lemma {:induction false} KeyUnusedExactly(lines: seq<string>, width: nat, c: nat, value: string)
    requires c < width
    ensures KeyUnused(lines, width, c, value) <==>
            && LoadRows(lines, width).Some?
            && forall r :: 0 <= r < |LoadRows(lines, width).value| ==> LoadRows(lines, width).value[r][c] != value
    decreases |lines|
  {
    hide ParseLine;
    if lines != [] {
      KeyUnusedExactly(lines[1..], width, c, value);
      if LoadRows(lines, width).Some? && !Blank(lines[0]) {
        RowsOfMore(lines, width);
      }
    }
  }

  lemma RowsOfMore(lines: seq<string>, width: nat)
    requires lines != [] && LoadRows(lines, width).Some? && !Blank(lines[0])
    ensures LoadRows(lines[1..], width).Some? && ParseLine(lines[0]).Some?
    ensures var rows, later := LoadRows(lines, width).value, LoadRows(lines[1..], width).value;
            && |rows| == |later| + 1 && rows[0] == ParseLine(lines[0]).value
            && (forall r :: 0 <= r < |later| ==> later[r] == rows[r + 1])
            && forall r :: 0 < r < |rows| ==> rows[r] == later[r - 1]
  {
    hide ParseLine;
  }

  /** The id scan succeeds exactly when the lines load and every id is an integer. */
  lemma {:induction false} ScanSucceedsExactly(lines: seq<string>, width: nat, c: nat, next: int)
    requires c < width
    ensures ScanNextId(lines, width, c, next).Some? <==>
            LoadRows(lines, width).Some? && AllIntegerIds(LoadRows(lines, width).value, c)
    decreases |lines|
  {
    hide ParseLine, ParseInteger, IsIntegerText;
    if lines != [] {
      if Blank(lines[0]) {
        ScanSucceedsExactly(lines[1..], width, c, next);
      } else if ParseLine(lines[0]).Some? && |ParseLine(lines[0]).value| == width {
        if LoadRows(lines, width).Some? {
          RowsOfMore(lines, width);
        }
        var cell := ParseLine(lines[0]).value[c];
        if IsIntegerText(cell) {
          var id := ParseInteger(cell);
          ScanSucceedsExactly(lines[1..], width, c, if id >= next then id + 1 else next);
        }
      }
    }
  }

  // ---- usable tables ---------------------------------------------------------------------------------

  /** The cell says a number that fits an `int` and is not negative. */
  ghost predicate SaysId(cell: string) {
    exists x :: Spells(cell, x) && 0 <= x <= 2147483647
  }

  /** Every row has an id in column `c`, and no two rows the same one, however written. */
  ghost predicate HasIds(rows: seq<seq<string>>, c: nat)
    requires forall r :: 0 <= r < |rows| ==> c < |rows[r]|
  {
    && (forall r :: 0 <= r < |rows| ==> SaysId(rows[r][c]))
    && forall r, q, x :: 0 <= r < q < |rows| && Spells(rows[r][c], x) ==> !Spells(rows[q][c], x)
  }

  lemma IdsExactly(rows: seq<seq<string>>, c: nat)
    requires forall r :: 0 <= r < |rows| ==> c < |rows[r]|
    ensures IdsOk(rows, c) <==> HasIds(rows, c)
  {
    hide Spells, ParseInteger, IsIntegerText;
    forall r | 0 <= r < |rows| ensures ValidId(rows[r][c]) <==> SaysId(rows[r][c]) {
      ValidIdExactly(rows[r][c]);
    }
    forall r, x | 0 <= r < |rows| && ValidId(rows[r][c])
      ensures Spells(rows[r][c], x) <==> ParseInteger(rows[r][c]) == x
    {
      IdSpells(rows[r][c], x);
    }
  }

  lemma IdSpells(cell: string, x: int)
    requires ValidId(cell)
    ensures IsIntegerText(cell) && (Spells(cell, x) <==> ParseInteger(cell) == x)
  {
    hide Spells, IsIntegerText, ParseInteger;
    ValidIdExactly(cell);
    var y :| Spells(cell, y) && 0 <= y <= 2147483647;
    SpelledIsRead(cell, y);
    if Spells(cell, x) {
      SpelledIsRead(cell, x);
    }
  }

  /** Exactly which files the runtime can use, and as what. */
  lemma UsableExactly(file: File, table: TableData)
    ensures LoadedTable(file) == Some(table) <==>
            && LoadTable(file) == Some(table)
            && exists c: nat :: IsColumn(table.columns, "id", c) && |table.columns| > c && HasIds(table.rows, c)
  {
    hide IsColumn, FirstNamed, HasIds, IdsOk, ReadHeader, LoadRows;
    FirstNamedIs(table.columns, "id");
    if LoadTable(file) == Some(table) && FirstNamed(table.columns, "id").Some? {
      IdsExactly(table.rows, FirstNamed(table.columns, "id").value);
    }
  }

  /** What a load leaves: a missing file or one that cannot be read changes nothing, one
      that cannot be used leaves an empty runtime of that name, and any other is in memory
      with its next id. */
  lemma LoadOutcomes(r: Runtime, files: map<string, File>, name: string)
    requires RuntimeOk(r) && !r.loaded
    ensures name !in files ==> Load(r, files, name) == (true, r)
    ensures name in files && LoadTable(files[name]).None? ==> Load(r, files, name) == (false, r)
    ensures name in files && LoadTable(files[name]).Some? && LoadedTable(files[name]).None? ==>
              Load(r, files, name) == (false, Runtime(name, false, [], [], 1))
    ensures name in files && LoadedTable(files[name]).Some? ==>
              var table, (ok, after) := LoadedTable(files[name]).value, Load(r, files, name);
              && ok && after == Runtime(name, true, table.columns, table.rows, after.nextId)
              && forall c: nat :: IsColumn(table.columns, "id", c) ==>
                   AllIntegerIds(table.rows, c) && IsNextId(table.rows, c, after.nextId)
  {
    hide IsColumn, FirstNamed, LoadTable, IsNextId, NextIdOf, IsIntegerText, ParseInteger;
    if name in files && LoadedTable(files[name]).Some? {
      var table := LoadedTable(files[name]).value;
      FirstNamedIs(table.columns, "id");
      NextIdOfIsNextId(table.rows, FirstNamed(table.columns, "id").value);
    }
  }

  // ---- appending -----------------------------------------------------------------------------------

  /** Storage numbers the row itself: the table has an id column, the statement has none. */
  ghost predicate GivesId(columns: seq<string>, stmt: InsertStatement) {
    HasColumn(columns, "id") && !HasColumn(stmt.columns, "id")
  }

  /** The statement has a value for every column, the id aside if storage gives it. */
  ghost predicate FillsColumns(columns: seq<string>, stmt: InsertStatement) {
    && |columns| == |stmt.columns| + (if GivesId(columns, stmt) then 1 else 0)
    && forall i: nat :: i < |columns| && !(GivesId(columns, stmt) && IsColumn(columns, "id", i)) ==>
         HasColumn(stmt.columns, columns[i])
  }

  /** The cell is the statement's value for its first column of that name. */
  ghost predicate ComesFrom(stmt: InsertStatement, name: string, cell: string)
    requires |stmt.values| == |stmt.columns|
  {
    exists c: nat :: IsColumn(stmt.columns, name, c) && cell == stmt.values[c]
  }

  /** The row has the statement's value of the same name in every column, and the id in
      the id column if storage gives it. */
  ghost predicate IsFilled(columns: seq<string>, stmt: InsertStatement, id: string, row: seq<string>)
    requires |stmt.values| == |stmt.columns|
  {
    && |row| == |columns|
    && forall i: nat :: i < |columns| ==>
         if GivesId(columns, stmt) && IsColumn(columns, "id", i) then row[i] == id
         else ComesFrom(stmt, columns[i], row[i])
  }

  /** The id the statement brings along is a new one. */
  ghost predicate BringsNewId(columns: seq<string>, rows: seq<seq<string>>, row: seq<string>)
    requires |row| == |columns| && Rectangular(rows, |columns|)
  {
    forall c: nat :: IsColumn(columns, "id", c) ==>
      row[c] != "" && forall r :: 0 <= r < |rows| ==> rows[r][c] != row[c]
  }

  lemma AutoIdExactly(columns: seq<string>, stmt: InsertStatement)
    ensures AutoId(columns, stmt) <==> GivesId(columns, stmt)
  {
    hide FirstNamed, HasColumn, IsColumn;
    FirstNamedIs(columns, "id");
    FirstNamedIs(stmt.columns, "id");
  }

  lemma AcceptsExactly(columns: seq<string>, stmt: InsertStatement)
    ensures SchemaAccepts(columns, stmt) <==> FillsColumns(columns, stmt)
  {
    hide FirstNamed, HasColumn, IsColumn, GivesId;
    AutoIdExactly(columns, stmt);
    FirstNamedIs(columns, "id");
    FirstNamedIs(stmt.columns, "id");
    forall i: nat | i < |columns|
      ensures ColumnProvided(columns, stmt, i)
              <==> (GivesId(columns, stmt) && IsColumn(columns, "id", i)) || HasColumn(stmt.columns, columns[i])
    {
      FirstNamedIs(stmt.columns, columns[i]);
    }
    hide ColumnProvided;
  }

  lemma OrderedIsFilled(columns: seq<string>, stmt: InsertStatement, id: string)
    requires |stmt.values| == |stmt.columns| && SchemaAccepts(columns, stmt)
    ensures IsFilled(columns, stmt, id, OrderedValues(columns, stmt, id))
  {
    hide FirstNamed, Alike, GivesId, SchemaAccepts;
    var row := OrderedValues(columns, stmt, id);
    AutoIdExactly(columns, stmt);
    FirstNamedIs(columns, "id");
    forall i: nat | i < |columns|
      ensures if GivesId(columns, stmt) && IsColumn(columns, "id", i) then row[i] == id
              else ComesFrom(stmt, columns[i], row[i])
    {
      FirstNamedIs(stmt.columns, columns[i]);
      assert ColumnProvided(columns, stmt, i) && row[i] == ValueFor(columns, stmt, id, i);
      if FirstNamed(stmt.columns, columns[i]).Some? {
        assert IsColumn(stmt.columns, columns[i], FirstNamed(stmt.columns, columns[i]).value);
      }
    }
  }

  /** What storage does with a row for a table it can load: it appends the statement's
      values under their columns' names, with the next id where it gives one, or nothing
      if a column has no value, an id it brings is empty or taken, or an id in the file is
      no integer. */
  lemma AppendsExactly(file: File, table: TableData, stmt: InsertStatement) returns (row: seq<string>, next: nat)
    requires LoadTable(file) == Some(table) && table.columns != [] && |stmt.values| == |stmt.columns|
    ensures AfterInsert(file, stmt).Some? <==>
            && FillsColumns(table.columns, stmt)
            && (if GivesId(table.columns, stmt)
                then forall c: nat :: IsColumn(table.columns, "id", c) ==> AllIntegerIds(table.rows, c)
                else |row| == |table.columns| && BringsNewId(table.columns, table.rows, row))
    ensures FillsColumns(table.columns, stmt) ==> IsFilled(table.columns, stmt, Decimal(next), row)
    ensures AfterInsert(file, stmt).Some? ==> AfterInsert(file, stmt).value == file + Lines(EncodeRow(row) + "\n")
    ensures AfterInsert(file, stmt).Some? && GivesId(table.columns, stmt) ==>
              forall c: nat :: IsColumn(table.columns, "id", c) ==> IsNextId(table.rows, c, next)
  {
    hide SchemaAccepts, FillsColumns, GivesId, OrderedValues, ScanNextId, KeyUnused, EncodeRow, Lines, FirstNamed,
      IsColumn, IsNextId, IsIntegerText, ParseLine, HasColumn, IsFilled, NextIdOf;
    AcceptsExactly(table.columns, stmt);
    AutoIdExactly(table.columns, stmt);
    FirstNamedIs(table.columns, "id");
    row, next := [], 0;
    if SchemaAccepts(table.columns, stmt) {
      var id := FirstNamed(table.columns, "id");
      if GivesId(table.columns, stmt) {
        ScanSucceedsExactly(DataLines(file), |table.columns|, id.value, 1);
        if AllIntegerIds(table.rows, id.value) {
          ScanAgreesWithRows(DataLines(file), |table.columns|, id.value, 1);
          NextIdOfIsNextId(table.rows, id.value);
          NextIdAtLeast(table.rows, id.value, 1);
          next := NextIdOf(table.rows, id.value, 1);
        }
        row := OrderedValues(table.columns, stmt, Decimal(next));
        OrderedIsFilled(table.columns, stmt, Decimal(next));
      } else {
        row := OrderedValues(table.columns, stmt, "");
        OrderedIsFilled(table.columns, stmt, "");
        FilledWithoutId(table.columns, stmt, "", Decimal(next), row);
        if id.Some? {
          KeyUnusedExactly(DataLines(file), |table.columns|, id.value, row[id.value]);
        }
      }
    }
  }

  lemma FilledWithoutId(columns: seq<string>, stmt: InsertStatement, a: string, b: string, row: seq<string>)
    requires |stmt.values| == |stmt.columns| && !GivesId(columns, stmt) && IsFilled(columns, stmt, a, row)
    ensures IsFilled(columns, stmt, b, row)
  {
    hide IsColumn, GivesId, ComesFrom;
  }

  /** The file of a new table: its header, with an id column in front unless the statement
      has one, and its first row, which gets the id 1. */
  lemma StartsExactly(stmt: InsertStatement)
    requires |stmt.values| == |stmt.columns|
    ensures !HasColumn(stmt.columns, "id") ==>
              && (AfterInsert([], stmt).Some? <==> |stmt.columns| <= 31)
              && (AfterInsert([], stmt).Some? ==>
                    AfterInsert([], stmt).value
                    == Lines(EncodeRow(["id"] + stmt.columns) + "\n" + EncodeRow(["1"] + stmt.values) + "\n"))
    ensures forall c: nat :: IsColumn(stmt.columns, "id", c) ==>
              && (AfterInsert([], stmt).Some? <==> |stmt.columns| <= 32 && stmt.values[c] != "")
              && (AfterInsert([], stmt).Some? ==>
                    AfterInsert([], stmt).value
                    == Lines(EncodeRow(stmt.columns) + "\n" + EncodeRow(stmt.values) + "\n"))
  {
    hide FirstNamed, IsColumn, HasColumn, EncodeRow, Lines, SameName;
    FirstNamedIs(stmt.columns, "id");
    var header := ["id"] + stmt.columns;
    FirstNamedIs(header, "id");
    assert IsColumn(header, "id", 0) by { IdComesFirst(header); }
  }

  lemma IdComesFirst(header: seq<string>)
    requires header != [] && header[0] == "id"
    ensures IsColumn(header, "id", 0)
  {
  }
}
