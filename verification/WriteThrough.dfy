/** What an insert leaves in the table file, and exactly when reading the file back
    gives the table the runtime holds in memory. */
module WriteThrough {
  import opened Text
  import opened Csv
  import opened Statements
  import opened Storage
  import opened EngineModel

  // ---- appending to a file ----------------------------------------------------------

  lemma {:induction false} LoadRowsAppend(lines: seq<string>, more: seq<string>, width: nat)
    requires LoadRows(lines, width).Some?
    ensures LoadRows(lines + more, width) == Prepend(LoadRows(lines, width).value, LoadRows(more, width))
    decreases |lines|
  {
    if lines == [] {
      assert lines + more == more;
      PrependNothing(LoadRows(more, width));
    } else {
      assert (lines + more)[1..] == lines[1..] + more;
      LoadRowsAppend(lines[1..], more, width);
      if !Blank(lines[0]) {
        PrependTwice([ParseLine(lines[0]).value], LoadRows(lines[1..], width).value, LoadRows(more, width));
      }
    }
  }

  lemma HeaderAppend(file: File, more: seq<string>)
    requires file != []
    ensures ReadHeader(file + more) == ReadHeader(file)
    ensures DataLines(file + more) == DataLines(file) + more && DataLines(file) == file[1..]
  {
    assert (file + more)[0] == file[0];
    assert (file + more)[1..] == file[1..] + more;
  }

  lemma LoadTableAppend(file: File, more: seq<string>)
    requires file != [] && LoadTable(file).Some?
    ensures var table := LoadTable(file).value;
            var rows := LoadRows(more, |table.columns|);
            LoadTable(file + more) == if rows.None? then None
              else Some(TableData(table.columns, table.rows + rows.value))
  {
    HeaderAppend(file, more);
    hide LoadRows, ReadHeader;
    LoadRowsAppend(file[1..], more, |ReadHeader(file).value|);
  }

  // ---- one written row -----------------------------------------------------------------

  lemma {:induction false} DoubledNoBreaks(value: string)
    requires NoBreaks(value)
    ensures NoBreaks(Doubled(value))
  {
    if value != "" {
      DoubledNoBreaks(value[1..]);
    }
  }

  lemma {:induction false} RowNoBreaks(cells: seq<string>)
    requires NoBreaksInAny(cells)
    ensures NoBreaks(EncodeRow(cells)) && NoNewline(EncodeRow(cells))
  {
    if cells != [] {
      assert NoBreaks(cells[0]);
      DoubledNoBreaks(cells[0]);
      if |cells| > 1 {
        RowNoBreaks(cells[1..]);
      }
    }
  }

  /** A record that starts with a plain character is not taken for a blank line. */
  lemma RowNotBlank(cells: seq<string>)
    requires cells != [] && cells[0] != "" && NoBreaks(cells[0])
    ensures EncodeRow(cells) != "" && !Blank(EncodeRow(cells))
  {
    var first := EncodeCell(cells[0]);
    assert first[0] == if NeedsQuotes(cells[0]) then '"' else cells[0][0];
    assert EncodeRow(cells)[0] == first[0];
  }

  /** The reader stops at the first newline, so what follows it does not matter. */
  lemma {:induction false} ParseStopsAtNewline(text: string, rest: string, cell: string, inQuotes: bool)
    ensures ParseFrom(text + ['\n'] + rest, cell, inQuotes) == ParseFrom(text, cell, inQuotes)
    decreases |text|
  {
    var whole := text + ['\n'] + rest;
    if text != "" {
      assert whole[0] == text[0] && whole[1] == (if |text| >= 2 then text[1] else '\n');
      assert whole[1..] == text[1..] + ['\n'] + rest;
      if |text| >= 2 {
        assert whole[2..] == text[2..] + ['\n'] + rest;
        if inQuotes && text[0] == '"' && text[1] == '"' {
          ParseStopsAtNewline(text[2..], rest, cell + ['"'], true);
        }
      }
      ParseStopsAtNewlineTail(text, rest, cell, inQuotes);
    }
  }

  lemma {:induction false} ParseStopsAtNewlineTail(text: string, rest: string, cell: string, inQuotes: bool)
    requires text != ""
    ensures ParseFrom(text[1..] + ['\n'] + rest, cell, true) == ParseFrom(text[1..], cell, true)
    ensures ParseFrom(text[1..] + ['\n'] + rest, cell, false) == ParseFrom(text[1..], cell, false)
    ensures ParseFrom(text[1..] + ['\n'] + rest, "", false) == ParseFrom(text[1..], "", false)
    ensures ParseFrom(text[1..] + ['\n'] + rest, cell + [text[0]], inQuotes)
      == ParseFrom(text[1..], cell + [text[0]], inQuotes)
    decreases |text|, 0
  {
    ParseStopsAtNewline(text[1..], rest, cell, true);
    ParseStopsAtNewline(text[1..], rest, cell, false);
    ParseStopsAtNewline(text[1..], rest, "", false);
    ParseStopsAtNewline(text[1..], rest, cell + [text[0]], inQuotes);
  }

  /** The first line of a text that contains a newline somewhere. */
  lemma {:induction false} FirstLine(text: string, line: string) returns (head: string, tail: string)
    ensures NoNewline(head) && text + ['\n'] == head + ['\n'] + tail
    ensures LinesFrom(text + ['\n'], line) == [line + head] + Lines(tail)
    ensures !NoNewline(text) ==> text[..|head|] == head && |head| < |text| && text[|head|] == '\n'
    decreases |text|
  {
    if text == "" || text[0] == '\n' {
      head, tail := "", (text + ['\n'])[1..];
      assert line + head == line;
    } else {
      var h;
      h, tail := FirstLine(text[1..], line + [text[0]]);
      head := [text[0]] + h;
      assert (text + ['\n'])[1..] == text[1..] + ['\n'];
      assert line + [text[0]] + h == line + head;
    }
  }

  /** Reading back one appended record of the table's width. */
  lemma AppendedRowLoads(cells: seq<string>, width: nat)
    requires width == |cells| > 0 && NoBreaksInAny(cells)
    requires cells[0] != "" && !TooLong(EncodeRow(cells))
    ensures LoadRows(Lines(EncodeRow(cells) + ['\n']), width) == Some([cells])
  {
    var text := EncodeRow(cells);
    RowNoBreaks(cells);
    assert NoBreaks(cells[0]);
    RowNotBlank(cells);
    LinesOfOne(text, "");
    assert text + ['\n'] + "" == text + ['\n'];
    ParseEncodedRow(cells);
    var lines := Lines(text + ['\n']);
    assert lines == [text] && lines[1..] == [] && [cells] + [] == [cells];
  }

  /** A line break in a cell makes the appended record, and with it the file, unreadable. */
  lemma BrokenRowDoesNotLoad(cells: seq<string>, width: nat)
    requires cells != [] && !NoBreaksInAny(cells) && cells[0] != "" && NoBreaks(cells[0])
    ensures LoadRows(Lines(EncodeRow(cells) + ['\n']), width).None?
  {
    var text := EncodeRow(cells);
    var head, tail := FirstLine(text, "");
    assert "" + head == head;
    assert Lines(text + ['\n'])[0] == head;
    RowNotBlank(cells);
    ParseBrokenRow(cells, ['\n']);
    ParseStopsAtNewline(head, tail, "", false);
    if head != "" {
      assert head[0] == (text + ['\n'])[0] == text[0];
    }
  }

  // ---- inserting into an existing table ---------------------------------------------------

  /** Columns that repeat a name (up to case) carry the same value. */
  predicate ValuesAgree(stmt: InsertStatement)
    requires |stmt.values| == |stmt.columns|
  {
    forall i :: 0 <= i < |stmt.columns| ==>
      stmt.values[FirstNamed(stmt.columns, stmt.columns[i]).value] == stmt.values[i]
  }

  /** The open table of a loadable file, and a statement that fits its schema. */
  predicate Accepted(file: File, table: TableData, stmt: InsertStatement) {
    && LoadedTable(file) == Some(table)
    && FitsInsert(stmt) && SchemaMatches(table.columns, stmt)
  }

  lemma ColumnIsProvided(columns: seq<string>, stmt: InsertStatement, i: nat)
    requires SchemaMatches(columns, stmt) && 0 < i < |columns|
    ensures ColumnProvided(columns, stmt, i)
    ensures FirstNamed(stmt.columns, columns[i]) == FirstNamed(stmt.columns, stmt.columns[i - 1])
  {
    assert SameName(columns[i - 1 + 1], stmt.columns[i - 1]);
    FirstNamedSame(stmt.columns, columns[i], stmt.columns[i - 1]);
  }

  lemma SchemaIsAccepted(columns: seq<string>, stmt: InsertStatement)
    requires FirstNamed(columns, "id") == Some(0) && FirstNamed(stmt.columns, "id").None?
    requires SchemaMatches(columns, stmt)
    ensures SchemaAccepts(columns, stmt) && AutoId(columns, stmt)
    ensures forall i :: 0 < i < |columns| ==>
              FirstNamed(stmt.columns, columns[i]) == FirstNamed(stmt.columns, stmt.columns[i - 1])
  {
    hide FirstNamed, SameName, ColumnProvided, AutoId, CountFits;
    forall i | 0 < i < |columns|
      ensures ColumnProvided(columns, stmt, i)
      ensures FirstNamed(stmt.columns, columns[i]) == FirstNamed(stmt.columns, stmt.columns[i - 1])
    {
      ColumnIsProvided(columns, stmt, i);
    }
    IdIsProvided(columns, stmt);
  }

  lemma IdIsProvided(columns: seq<string>, stmt: InsertStatement)
    requires FirstNamed(columns, "id") == Some(0) && FirstNamed(stmt.columns, "id").None?
    requires SchemaMatches(columns, stmt)
    ensures ColumnProvided(columns, stmt, 0) && AutoId(columns, stmt) && CountFits(columns, stmt)
  {
  }

  /** The row storage writes for an accepted statement. */
  ghost function StoredRow(nextId: nat, stmt: InsertStatement): (row: seq<string>)
    requires |stmt.values| == |stmt.columns|
    ensures |row| == |stmt.columns| + 1
  {
    [Decimal(nextId)]
    + seq(|stmt.columns|, i requires 0 <= i < |stmt.columns| =>
        stmt.values[FirstNamed(stmt.columns, stmt.columns[i]).value])
  }

  lemma StoredRowIsNewRow(nextId: nat, stmt: InsertStatement)
    requires |stmt.values| == |stmt.columns|
    ensures StoredRow(nextId, stmt) == NewRow(nextId, stmt) <==> ValuesAgree(stmt)
  {
    var stored, inMemory := StoredRow(nextId, stmt), NewRow(nextId, stmt);
    if stored == inMemory {
      forall i | 0 <= i < |stmt.columns|
        ensures stmt.values[FirstNamed(stmt.columns, stmt.columns[i]).value] == stmt.values[i]
      {
        assert stored[i + 1] == inMemory[i + 1];
      }
    }
  }

  lemma NextIdPositive(table: TableData)
    requires FirstNamed(table.columns, "id").Some? && IdsOk(table.rows, FirstNamed(table.columns, "id").value)
    ensures NextIdOf(table.rows, FirstNamed(table.columns, "id").value, 1) >= 1
  {
    NextIdAtLeast(table.rows, FirstNamed(table.columns, "id").value, 1);
  }

  lemma OrderedIsStored(columns: seq<string>, stmt: InsertStatement, next: nat)
    requires |stmt.values| == |stmt.columns| && SchemaMatches(columns, stmt)
    requires FirstNamed(columns, "id") == Some(0) && FirstNamed(stmt.columns, "id").None?
    ensures SchemaAccepts(columns, stmt) && OrderedValues(columns, stmt, Decimal(next)) == StoredRow(next, stmt)
  {
    hide FirstNamed, Decimal, SameName;
    SchemaIsAccepted(columns, stmt);
    var ordered, stored := OrderedValues(columns, stmt, Decimal(next)), StoredRow(next, stmt);
    forall i | 0 <= i < |columns| ensures ordered[i] == stored[i] {
      assert ordered[i] == ValueFor(columns, stmt, Decimal(next), i);
    }
  }

  /** Storage accepts what the runtime accepted unless the statement names an id
      column, and then it writes the id the runtime has computed by itself. */
  lemma StorageAcceptsExactly(file: File, table: TableData, stmt: InsertStatement)
    requires Accepted(file, table, stmt)
    ensures AfterInsert(file, stmt).Some? <==> FirstNamed(stmt.columns, "id").None?
    ensures AfterInsert(file, stmt).Some? ==>
              && FirstNamed(table.columns, "id") == Some(0)
              && NextIdOf(table.rows, 0, 1) >= 1
              && AfterInsert(file, stmt)
                 == Some(file + Lines(EncodeRow(StoredRow(NextIdOf(table.rows, 0, 1), stmt)) + ['\n']))
  {
    IdIsFirst(table.columns, stmt);
    if FirstNamed(stmt.columns, "id").None? {
      NextIdPositive(table);
      OrderedIsStored(table.columns, stmt, NextIdOf(table.rows, 0, 1));
      SchemaIsAccepted(table.columns, stmt);
      ScanAgreesWithRows(DataLines(file), |table.columns|, 0, 1);
    }
  }

  lemma StoredRowFits(nextId: nat, stmt: InsertStatement)
    requires FitsInsert(stmt) && |stmt.columns| < MAX_COLUMNS && nextId <= INT_MAX
    ensures !TooLong(EncodeRow(StoredRow(nextId, stmt)))
    ensures StoredRow(nextId, stmt)[0] != "" && NoBreaks(StoredRow(nextId, stmt)[0])
  {
    var row := StoredRow(nextId, stmt);
    assert row == [Decimal(nextId)] + row[1..];
    RowFitsLineBuffer(nextId, row[1..]);
  }

  /** The new id is fresh, so the longer table is as good as the old one. */
  lemma NewRowKeepsIds(rows: seq<seq<string>>, row: seq<string>)
    requires IdsOk(rows, 0) && row != []
    requires 1 <= NextIdOf(rows, 0, 1) <= INT_MAX && row[0] == Decimal(NextIdOf(rows, 0, 1))
    ensures IdsOk(rows + [row], 0)
    ensures NextIdOf(rows + [row], 0, 1) == NextIdOf(rows, 0, 1) + 1
  {
    NextIdAtLeast(rows, 0, 1);
    DecimalRoundTrip(NextIdOf(rows, 0, 1));
    NextIdExtends(rows, 0, 1, row);
  }

  /** Write-through coherence, exactly: reading the file back gives the table in
      memory if and only if no inserted value contains a line break and repeated
      column names carry equal values. */
  lemma ReloadAfterInsertExactly(file: File, table: TableData, stmt: InsertStatement)
    requires Accepted(file, table, stmt) && AfterInsert(file, stmt).Some?
    requires FirstNamed(table.columns, "id") == Some(0) && 1 <= NextIdOf(table.rows, 0, 1) <= INT_MAX
    ensures var next := NextIdOf(table.rows, 0, 1);
            var inMemory := TableData(table.columns, table.rows + [NewRow(next, stmt)]);
            && (LoadedTable(AfterInsert(file, stmt).value) == Some(inMemory)
                <==> NoBreaksInAny(stmt.values) && ValuesAgree(stmt))
            && AllIntegerIds(inMemory.rows, 0) && NextIdOf(inMemory.rows, 0, 1) == next + 1
  {
    var next := NextIdOf(table.rows, 0, 1);
    var stored := StoredRow(next, stmt);
    StorageAcceptsExactly(file, table, stmt);
    StoredRowIsNewRow(next, stmt);
    StoredRowFits(next, stmt);
    LoadTableAppend(file, Lines(EncodeRow(stored) + ['\n']));
    NewRowKeepsIds(table.rows, stored);
    NewRowKeepsIds(table.rows, NewRow(next, stmt));
    ReloadCases(file, table, stmt, next, stored);
  }

  /** What the file gives after an insert: the row storage wrote, or nothing at all. */
  lemma ReloadAfterInsertIs(file: File, table: TableData, stmt: InsertStatement)
    requires Accepted(file, table, stmt) && AfterInsert(file, stmt).Some?
    requires FirstNamed(table.columns, "id") == Some(0) && 1 <= NextIdOf(table.rows, 0, 1) <= INT_MAX
    ensures var stored := StoredRow(NextIdOf(table.rows, 0, 1), stmt);
            LoadedTable(AfterInsert(file, stmt).value)
            == if NoBreaksInAny(stored) then Some(TableData(table.columns, table.rows + [stored])) else None
  {
    var next := NextIdOf(table.rows, 0, 1);
    var stored := StoredRow(next, stmt);
    StorageAcceptsExactly(file, table, stmt);
    StoredRowFits(next, stmt);
    LoadTableAppend(file, Lines(EncodeRow(stored) + ['\n']));
    NewRowKeepsIds(table.rows, stored);
    assert NoBreaks(stored[0]);
    hide EncodeRow, Lines, StoredRow, IdsOk, LoadRows, AfterInsert;
    if NoBreaksInAny(stored) {
      AppendedRowLoads(stored, |table.columns|);
    } else {
      BrokenRowDoesNotLoad(stored, |table.columns|);
    }
    hide LoadTable;
  }

  lemma ReloadCases(file: File, table: TableData, stmt: InsertStatement, next: nat, stored: seq<string>)
    requires |stored| == |table.columns| > 0 && |stmt.values| == |stmt.columns| && next <= INT_MAX
    requires stored == StoredRow(next, stmt) && IdsOk(table.rows + [stored], 0)
      && FirstNamed(table.columns, "id") == Some(0)
    requires stored == NewRow(next, stmt) <==> ValuesAgree(stmt)
    requires !TooLong(EncodeRow(stored)) && stored[0] != "" && NoBreaks(stored[0])
    requires LoadTable(file + Lines(EncodeRow(stored) + ['\n']))
          == var rows := LoadRows(Lines(EncodeRow(stored) + ['\n']), |table.columns|);
             if rows.None? then None else Some(TableData(table.columns, table.rows + rows.value))
    ensures LoadedTable(file + Lines(EncodeRow(stored) + ['\n']))
            == Some(TableData(table.columns, table.rows + [NewRow(next, stmt)]))
            <==> NoBreaksInAny(stmt.values) && ValuesAgree(stmt)
  {
    StoredRowBreaks(next, stmt);
    if NoBreaksInAny(stored) {
      AppendedRowLoads(stored, |table.columns|);
      LastRowDecides(table.rows, stored, NewRow(next, stmt));
    } else {
      BrokenRowDoesNotLoad(stored, |table.columns|);
    }
    hide EncodeRow, Lines, FirstNamed, NoBreaksInAny, StoredRow, NewRow, ValuesAgree, IdsOk, LoadRows, LoadTable;
  }

  lemma LastRowDecides(rows: seq<seq<string>>, a: seq<string>, b: seq<string>)
    ensures rows + [a] == rows + [b] <==> a == b
  {
    assert (rows + [a])[|rows|] == a && (rows + [b])[|rows|] == b;
  }

  lemma StoredRowBreaks(next: nat, stmt: InsertStatement)
    requires |stmt.values| == |stmt.columns|
    ensures StoredRow(next, stmt) == NewRow(next, stmt) ==>
              (NoBreaksInAny(StoredRow(next, stmt)) <==> NoBreaksInAny(stmt.values))
  {
    var stored := StoredRow(next, stmt);
    assert NoBreaks(stored[0]);
    if stored == NewRow(next, stmt) {
      forall i | 0 <= i < |stmt.values| ensures stored[i + 1] == stmt.values[i] {
      }
      if NoBreaksInAny(stmt.values) {
        forall i | 0 <= i < |stored| ensures NoBreaks(stored[i]) {
          if i > 0 {
            assert NoBreaks(stmt.values[i - 1]);
          }
        }
      }
    }
  }

  // ---- the first insert into a table -----------------------------------------------------------

  lemma FreshInsertAccepted(stmt: InsertStatement)
    requires FitsInsert(stmt) && CanStart(stmt)
    ensures AfterInsert([], stmt)
         == Some(Lines(EncodeRow(["id"] + stmt.columns) + ['\n'] + EncodeRow(NewRow(1, stmt)) + ['\n']))
  {
    assert FirstNamed(stmt.columns, "id").None?;
    assert Decimal(1) == "1";
    var header := ["id"] + stmt.columns;
    assert SameName(header[0], "id");
    assert FirstNamed(header, "id") == Some(0);
  }

  lemma HeaderFits(stmt: InsertStatement)
    requires FitsInsert(stmt) && CanStart(stmt)
    ensures !TooLong(EncodeRow(["id"] + stmt.columns)) && FitsNames(["id"] + stmt.columns)
  {
    EncodedLength(["id"] + stmt.columns, 63);
    assert |["id"] + stmt.columns| * 129 <= 32 * 129;
  }

  lemma FreshRowLoads(stmt: InsertStatement)
    requires FitsInsert(stmt) && CanStart(stmt)
    ensures LoadRows(Lines(EncodeRow(NewRow(1, stmt)) + ['\n']), |stmt.columns| + 1)
         == if NoBreaksInAny(stmt.values) then Some([NewRow(1, stmt)]) else None
  {
    var row := NewRow(1, stmt);
    RowFitsLineBuffer(1, stmt.values);
    assert NoBreaks(row[0]);
    if NoBreaksInAny(stmt.values) {
      assert NoBreaksInAny(row);
      AppendedRowLoads(row, |row|);
    } else {
      var i :| 0 <= i < |stmt.values| && !NoBreaks(stmt.values[i]);
      assert row[i + 1] == stmt.values[i];
      BrokenRowDoesNotLoad(row, |row|);
    }
  }

  lemma BrokenHeaderDoesNotLoad(header: seq<string>, rest: string)
    requires |header| > 0 && header[0] == "id" && !NoBreaksInAny(header)
    ensures LoadTable(Lines(EncodeRow(header) + ['\n'] + rest)).None?
  {
    hide ParseFrom, EncodeRow, EncodeCell, NoBreaks, LoadRows, Lines;
    var head, tail := FirstLineOf(EncodeRow(header), rest);
    ParseBrokenRow(header, ['\n'] + rest);
    JoinTwice(EncodeRow(header), ['\n'], rest);
    ParseStopsAtNewline(head, tail, "", false);
  }

  lemma FirstLineOf(text: string, rest: string) returns (head: string, tail: string)
    ensures text + ['\n'] + rest == head + ['\n'] + tail
    ensures Lines(text + ['\n'] + rest) == [head] + Lines(tail)
  {
    var t;
    head, t := FirstLine(text, "");
    tail := t + rest;
    assert text + ['\n'] + rest == head + ['\n'] + tail;
    LinesOfOne(head, tail);
  }

  /** The first insert: the new file reads back as the new table if and only if
      neither a column name nor a value contains a line break. */
  lemma ReloadAfterFirstInsertExactly(stmt: InsertStatement)
    requires FitsInsert(stmt) && CanStart(stmt)
    ensures AfterInsert([], stmt).Some?
    ensures LoadedTable(AfterInsert([], stmt).value)
            == Some(TableData(["id"] + stmt.columns, [NewRow(1, stmt)]))
            <==> NoBreaksInAny(stmt.columns) && NoBreaksInAny(stmt.values)
    ensures NextIdOf([NewRow(1, stmt)], 0, 1) == 2
  {
    FreshInsertAccepted(stmt);
    var header, row := ["id"] + stmt.columns, NewRow(1, stmt);
    var rest := EncodeRow(row) + ['\n'];
    assert EncodeRow(header) + ['\n'] + EncodeRow(row) + ['\n'] == EncodeRow(header) + ['\n'] + rest;
    NewRowKeepsIds([], row);
    assert [] + [row] == [row];
    assert header[0] == "id" && NoBreaks("id") && SameName(header[0], "id");
    assert FirstNamed(header, "id") == Some(0);
    if NoBreaksInAny(stmt.columns) {
      assert NoBreaksInAny(header);
      FreshHeaderLoads(header, rest, stmt);
    } else {
      var i :| 0 <= i < |stmt.columns| && !NoBreaks(stmt.columns[i]);
      assert header[i + 1] == stmt.columns[i];
      BrokenHeaderDoesNotLoad(header, rest);
    }
  }

  lemma FreshHeaderLoads(header: seq<string>, rest: string, stmt: InsertStatement)
    requires FitsInsert(stmt) && CanStart(stmt) && header == ["id"] + stmt.columns && NoBreaksInAny(header)
    requires rest == EncodeRow(NewRow(1, stmt)) + ['\n']
    ensures LoadTable(Lines(EncodeRow(header) + ['\n'] + rest))
         == if NoBreaksInAny(stmt.values) then Some(TableData(header, [NewRow(1, stmt)])) else None
  {
    RowNoBreaks(header);
    LinesOfOne(EncodeRow(header), rest);
    ParseEncodedRow(header);
    HeaderFits(stmt);
    FreshRowLoads(stmt);
    var file := Lines(EncodeRow(header) + ['\n'] + rest);
    assert file[0] == EncodeRow(header) && file[1..] == Lines(rest);
  }

  // ---- a row that storage refuses ---------------------------------------------------------------

  /** When storage refuses the row, whatever was in memory before, memory shows what the file
      holds afterwards: its table if it can be used, and nothing otherwise. */
  lemma RefusalReloads(r: Runtime, files: map<string, File>, stmt: InsertStatement)
    requires |stmt.values| == |stmt.columns| && r.nextId >= 0
    requires if r.loaded then SchemaMatches(r.columns, stmt) && r.nextId <= INT_MAX else CanStart(stmt)
    requires AfterInsert(if r.name in files then files[r.name] else [], stmt).None?
    ensures var (ok, after) := InsertRow(r, files, stmt);
            && !ok && after.files == files[r.name := if r.name in files then files[r.name] else []]
            && after.runtime.name == stmt.table
            && if stmt.table in after.files && LoadedTable(after.files[stmt.table]).Some?
               then after.runtime.loaded && LoadedTable(after.files[stmt.table])
                      == Some(TableData(after.runtime.columns, after.runtime.rows))
               else after.runtime == Runtime(stmt.table, false, [], [], 1)
  {
    hide AfterInsert, LoadedTable, LoadTable, SchemaMatches, NextIdOf;
  }
}
