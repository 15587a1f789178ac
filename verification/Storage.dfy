/** Table files (src/db/storage.c). A file is the list of its newline-terminated
    lines; loading, appending and replacing are single actions. */
module Storage {
  import opened Text
  import opened Csv
  import opened Statements

  type File = seq<string>

  datatype TableData = TableData(columns: seq<string>, rows: seq<seq<string>>)

  // ---- lines of a file --------------------------------------------------------------

  /** The lines of a text whose last line may lack its newline. */
  function LinesFrom(text: string, line: string): (texts: seq<string>)
    decreases |text|
  {
    if text == "" then (if line == "" then [] else [line])
    else if text[0] == '\n' then [line] + LinesFrom(text[1..], "")
    else LinesFrom(text[1..], line + [text[0]])
  }

  function Lines(text: string): (texts: seq<string>) {
    LinesFrom(text, "")
  }

  predicate NoNewline(s: string) {
    '\n' !in s
  }

  lemma {:induction false} LinesOfLine(text: string, line: string, rest: string)
    requires NoNewline(text)
    ensures LinesFrom(text + ['\n'] + rest, line) == [line + text] + Lines(rest)
    decreases |text|
  {
    var whole := text + ['\n'] + rest;
    if text == "" {
      assert whole == ['\n'] + rest && whole[1..] == rest && line + text == line;
    } else {
      assert whole[1..] == text[1..] + ['\n'] + rest;
      LinesOfLine(text[1..], line + [text[0]], rest);
      assert line + [text[0]] + text[1..] == line + text;
    }
  }

  /** One written record without line breaks is one line of the file. */
  lemma LinesOfOne(text: string, rest: string)
    requires NoNewline(text)
    ensures Lines(text + ['\n'] + rest) == [text] + Lines(rest)
  {
    LinesOfLine(text, "", rest);
    assert "" + text == text;
  }

  /** Lines one after another, each with its newline. */
  function Terminated(lines: seq<string>): (text: string) {
    if lines == [] then "" else lines[0] + ['\n'] + Terminated(lines[1..])
  }

  /** A text is cut at its newlines, and what follows the last one is a line if there is
      anything. */
  lemma {:induction false} LinesAre(lines: seq<string>, last: string)
    requires (forall i :: 0 <= i < |lines| ==> NoNewline(lines[i])) && NoNewline(last)
    ensures Lines(Terminated(lines) + last) == lines + if last == "" then [] else [last]
    decreases |lines|
  {
    if lines == [] {
      LastLine(last, "");
      assert "" + last == last;
    } else {
      LinesAre(lines[1..], last);
      var rest := Terminated(lines[1..]) + last;
      assert Terminated(lines) + last == lines[0] + ['\n'] + rest;
      LinesOfOne(lines[0], rest);
      assert lines == [lines[0]] + lines[1..];
    }
  }

  lemma {:induction false} LastLine(text: string, line: string)
    requires NoNewline(text)
    ensures LinesFrom(text, line) == if line + text == "" then [] else [line + text]
    decreases |text|
  {
    if text != "" {
      LastLine(text[1..], line + [text[0]]);
      assert line + [text[0]] + text[1..] == line + text;
    } else {
      assert line + text == line;
    }
  }

  /** `fgets` fills its buffer before it meets the newline. */
  predicate TooLong(line: string) {
    |line| + 2 > MAX_LINE
  }

  predicate Blank(line: string) {
    line == "" || line[0] == '\r'
  }

  // ---- loading ------------------------------------------------------------------------

  /** `storage_read_header`: an empty file has no columns. */
  function ReadHeader(file: File): (columns: Option<seq<string>>)
    ensures columns.Some? ==> FitsNames(columns.value)
    ensures columns.Some? ==> (columns.value == [] <==> file == [])
  {
    if file == [] then Some([])
    else if TooLong(file[0]) then None
    else
      var parsed := ParseLine(file[0]);
      if parsed.Some? && FitsNames(parsed.value) then parsed else None
  }

  /** The data rows of the given lines, if each has `width` cells. */
  function LoadRows(lines: seq<string>, width: nat): (rows: Option<seq<seq<string>>>)
    ensures rows.Some? ==> forall i :: 0 <= i < |rows.value| ==> |rows.value[i]| == width
  {
    if lines == [] then Some([])
    else if TooLong(lines[0]) then None
    else if Blank(lines[0]) then LoadRows(lines[1..], width)
    else
      var parsed := ParseLine(lines[0]);
      if parsed.None? || |parsed.value| != width then None
      else Prepend([parsed.value], LoadRows(lines[1..], width))
  }

  function DataLines(file: File): (texts: seq<string>) {
    if file == [] then [] else file[1..]
  }

  /** `storage_load_table`. */
  function LoadTable(file: File): (found: Option<TableData>) {
    var header := ReadHeader(file);
    if header.None? then None
    else
      var rows := LoadRows(DataLines(file), |header.value|);
      if rows.None? then None else Some(TableData(header.value, rows.value))
  }

  method CheckNames(names: seq<string>) returns (fit: bool)
    ensures fit == FitsNames(names)
  {
    if |names| > MAX_COLUMNS {
      return false;
    }
    var i := 0;
    while i < |names|
      invariant 0 <= i <= |names|
      invariant forall j :: 0 <= j < i ==> FitsName(names[j])
    {
      if |names[i]| >= MAX_IDENTIFIER_LEN {
        assert !FitsName(names[i]);
        return false;
      }
      i := i + 1;
    }
    return true;
  }

  method ReadHeaderLine(file: File) returns (columns: Option<seq<string>>)
    ensures columns == ReadHeader(file)
  {
    if file == [] {
      return Some([]);
    }
    if |file[0]| + 2 > MAX_LINE {
      return None;
    }
    var parsed := ParseCsvLine(file[0]);
    if parsed.None? {
      return None;
    }
    var fit := CheckNames(parsed.value);
    return if fit then parsed else None;
  }

  /** `storage_load_table_from_fp`. */
  method LoadTableFromFile(file: File) returns (table: Option<TableData>)
    ensures table == LoadTable(file)
  {
    var header := ReadHeaderLine(file);
    if header.None? {
      return None;
    }
    var width := |header.value|;
    var rows: seq<seq<string>> := [];
    var lines := DataLines(file);
    var i := 0;
    PrependNothing(LoadRows(lines, width));
    assert lines[0..] == lines;
    while i < |lines|
      invariant 0 <= i <= |lines|
      invariant LoadRows(lines, width) == Prepend(rows, LoadRows(lines[i..], width))
    {
      assert lines[i..][1..] == lines[i + 1..];
      var line := lines[i];
      if |line| + 2 > MAX_LINE {
        return None;
      }
      if !(line == "" || line[0] == '\r') {
        var parsed := ParseCsvLine(line);
        if parsed.None? || |parsed.value| != width {
          return None;
        }
        PrependTwice(rows, [parsed.value], LoadRows(lines[i + 1..], width));
        rows := rows + [parsed.value];
      }
      i := i + 1;
    }
    assert lines[i..] == [] && rows + [] == rows;
    return Some(TableData(header.value, rows));
  }

  // ---- the next id ----------------------------------------------------------------------

  /** One more than the largest id of the rows, at least 1: what a scan computes. */
  function NextIdOf(rows: seq<seq<string>>, idIndex: nat, next: int): (n: int)
    requires forall i :: 0 <= i < |rows| ==> idIndex < |rows[i]| && IsIntegerText(rows[i][idIndex])
  {
    if rows == [] then next
    else
      var id := ParseInteger(rows[0][idIndex]);
      NextIdOf(rows[1..], idIndex, if id >= next then id + 1 else next)
  }

  /** The scan of `storage_get_next_auto_id`, continuing from `next`. */
  function ScanNextId(lines: seq<string>, width: nat, idIndex: nat, next: int): (r: Option<int>)
    requires idIndex < width
    ensures r.Some? ==> r.value >= next
  {
    if lines == [] then Some(next)
    else if TooLong(lines[0]) then None
    else if Blank(lines[0]) then ScanNextId(lines[1..], width, idIndex, next)
    else
      var parsed := ParseLine(lines[0]);
      if parsed.None? || |parsed.value| != width || !IsIntegerText(parsed.value[idIndex]) then None
      else
        var id := ParseInteger(parsed.value[idIndex]);
        ScanNextId(lines[1..], width, idIndex, if id >= next then id + 1 else next)
  }

  predicate AllIntegerIds(rows: seq<seq<string>>, idIndex: nat) {
    forall i :: 0 <= i < |rows| ==> idIndex < |rows[i]| && IsIntegerText(rows[i][idIndex])
  }

  /** Scanning the file again computes the same id as folding over the loaded rows. */
  lemma {:induction false} ScanAgreesWithRows(lines: seq<string>, width: nat, idIndex: nat, next: int)
    requires idIndex < width && LoadRows(lines, width).Some?
    requires AllIntegerIds(LoadRows(lines, width).value, idIndex)
    ensures ScanNextId(lines, width, idIndex, next) == Some(NextIdOf(LoadRows(lines, width).value, idIndex, next))
    decreases |lines|
  {
    if lines != [] {
      var rest := LoadRows(lines[1..], width);
      if Blank(lines[0]) {
        ScanAgreesWithRows(lines[1..], width, idIndex, next);
      } else {
        var rows := LoadRows(lines, width).value;
        assert rows[1..] == rest.value;
        var id := ParseInteger(rows[0][idIndex]);
        ScanAgreesWithRows(lines[1..], width, idIndex, if id >= next then id + 1 else next);
      }
    }
  }

  method GetNextAutoId(file: File, columns: seq<string>, idIndex: nat) returns (next: Option<int>)
    requires idIndex < |columns|
    ensures next == ScanNextId(DataLines(file), |columns|, idIndex, 1)
  {
    var nextId := 1;
    var lines := DataLines(file);
    var i := 0;
    assert lines[0..] == lines;
    while i < |lines|
      invariant 0 <= i <= |lines|
      invariant ScanNextId(lines, |columns|, idIndex, 1) == ScanNextId(lines[i..], |columns|, idIndex, nextId)
    {
      assert lines[i..][1..] == lines[i + 1..];
      var line := lines[i];
      if |line| + 2 > MAX_LINE {
        return None;
      }
      if !(line == "" || line[0] == '\r') {
        var parsed := ParseCsvLine(line);
        if parsed.None? || |parsed.value| != |columns| {
          return None;
        }
        var isInteger := IsInteger(parsed.value[idIndex]);
        if !isInteger {
          return None;
        }
        var currentId := ParseInteger(parsed.value[idIndex]);
        if currentId >= nextId {
          nextId := currentId + 1;
        }
      }
      i := i + 1;
    }
    return Some(nextId);
  }

  // ---- primary key check -----------------------------------------------------------------

  /** The scan of `storage_validate_primary_key`: readable rows, none with this id. */
  predicate KeyUnused(lines: seq<string>, width: nat, idIndex: nat, value: string)
    requires idIndex < width
  {
    lines == [] ||
    (!TooLong(lines[0]) &&
     (Blank(lines[0]) ||
      (var parsed := ParseLine(lines[0]);
       parsed.Some? && |parsed.value| == width && parsed.value[idIndex] != value)) &&
     KeyUnused(lines[1..], width, idIndex, value))
  }

  method ValidatePrimaryKey(lines: seq<string>, columns: seq<string>, ordered: seq<string>) returns (ok: bool)
    requires |columns| == |ordered|
    ensures ok == (FirstNamed(columns, "id").Some? ==>
                     var id := FirstNamed(columns, "id").value;
                     ordered[id] != "" && KeyUnused(lines, |columns|, id, ordered[id]))
  {
    var idIndex := FindColumnIndex(columns, "id");
    if idIndex.None? {
      return true;
    }
    var value := ordered[idIndex.value];
    if value == "" {
      return false;
    }
    var i := 0;
    assert lines[0..] == lines;
    while i < |lines|
      invariant 0 <= i <= |lines|
      invariant KeyUnused(lines, |columns|, idIndex.value, value)
        == KeyUnused(lines[i..], |columns|, idIndex.value, value)
    {
      assert lines[i..][1..] == lines[i + 1..];
      var line := lines[i];
      if |line| + 2 > MAX_LINE {
        return false;
      }
      if !(line == "" || line[0] == '\r') {
        var parsed := ParseCsvLine(line);
        if parsed.None? || |parsed.value| != |columns| || parsed.value[idIndex.value] == value {
          return false;
        }
      }
      i := i + 1;
    }
    return true;
  }

  // ---- inserting ------------------------------------------------------------------------------

  function HeaderToWrite(stmt: InsertStatement): (texts: seq<string>) {
    if FirstNamed(stmt.columns, "id").Some? then stmt.columns else ["id"] + stmt.columns
  }

  function FirstRowToWrite(stmt: InsertStatement): (texts: seq<string>) {
    if FirstNamed(stmt.columns, "id").Some? then stmt.values else ["1"] + stmt.values
  }

  /** The column counts agree, an automatic id taking one column by itself. */
  predicate CountFits(columns: seq<string>, stmt: InsertStatement) {
    if FirstNamed(columns, "id").Some? && FirstNamed(stmt.columns, "id").None? then |columns| == |stmt.columns| + 1
    else |columns| == |stmt.columns|
  }

  /** Column `i` gets its value from the statement, found by name, or is the id. */
  predicate ColumnProvided(columns: seq<string>, stmt: InsertStatement, i: nat)
    requires i < |columns|
  {
    (FirstNamed(columns, "id") == Some(i) && FirstNamed(stmt.columns, "id").None?)
    || FirstNamed(stmt.columns, columns[i]).Some?
  }

  predicate SchemaAccepts(columns: seq<string>, stmt: InsertStatement) {
    CountFits(columns, stmt) && forall i :: 0 <= i < |columns| ==> ColumnProvided(columns, stmt, i)
  }

  predicate AutoId(columns: seq<string>, stmt: InsertStatement) {
    FirstNamed(columns, "id").Some? && FirstNamed(stmt.columns, "id").None?
  }

  /** The value of column `i`, looked up by column name. */
  function ValueFor(columns: seq<string>, stmt: InsertStatement, autoId: string, i: nat): (text: string)
    requires |stmt.values| == |stmt.columns| && i < |columns| && ColumnProvided(columns, stmt, i)
  {
    if AutoId(columns, stmt) && FirstNamed(columns, "id") == Some(i) then autoId
    else stmt.values[FirstNamed(stmt.columns, columns[i]).value]
  }

  /** The values in column order. */
  function OrderedValues(columns: seq<string>, stmt: InsertStatement, autoId: string): (row: seq<string>)
    requires |stmt.values| == |stmt.columns| && SchemaAccepts(columns, stmt)
    ensures |row| == |columns|
    ensures forall i :: 0 <= i < |columns| ==>
      ColumnProvided(columns, stmt, i) && row[i] == ValueFor(columns, stmt, autoId, i)
  {
    seq(|columns|, i requires 0 <= i < |columns| =>
      assert ColumnProvided(columns, stmt, i); ValueFor(columns, stmt, autoId, i))
  }

  /** The row storage appends to a table with the given columns, or a rejection. */
  function RowToAppend(file: File, columns: seq<string>, stmt: InsertStatement): (row: Option<seq<string>>)
    requires |stmt.values| == |stmt.columns|
    ensures row.Some? ==> |row.value| == |columns|
  {
    if !SchemaAccepts(columns, stmt) then None
    else if AutoId(columns, stmt) then
      var next := ScanNextId(DataLines(file), |columns|, FirstNamed(columns, "id").value, 1);
      if next.None? then None else Some(OrderedValues(columns, stmt, Decimal(next.value)))
    else
      var row := OrderedValues(columns, stmt, "");
      var id := FirstNamed(columns, "id");
      if id.Some? && !(row[id.value] != "" && KeyUnused(DataLines(file), |columns|, id.value, row[id.value])) then None
      else Some(row)
  }

  /** The table file after `storage_insert`, if it accepts the row. */
  function AfterInsert(file: File, stmt: InsertStatement): (found: Option<File>)
    requires |stmt.values| == |stmt.columns|
  {
    var columns := ReadHeader(file);
    if columns.None? then None
    else if file == [] then
      var header, row := HeaderToWrite(stmt), FirstRowToWrite(stmt);
      var id := FirstNamed(header, "id");
      if |header| > MAX_COLUMNS || (id.Some? && row[id.value] == "") then None
      else Some(Lines(EncodeRow(header) + ['\n'] + EncodeRow(row) + ['\n']))
    else
      var row := RowToAppend(file, columns.value, stmt);
      if row.None? then None else Some(file + Lines(EncodeRow(row.value) + ['\n']))
  }

  /** The checks of `storage_insert` against an existing header. */
  method CheckSchema(columns: seq<string>, stmt: InsertStatement, existingId: Option<nat>, stmtId: Option<nat>)
    returns (ok: bool)
    requires existingId == FirstNamed(columns, "id") && stmtId == FirstNamed(stmt.columns, "id")
    ensures ok == SchemaAccepts(columns, stmt)
  {
    if (existingId.None? && |columns| != |stmt.columns|) ||
       (existingId.Some? && stmtId.Some? && |columns| != |stmt.columns|) ||
       (existingId.Some? && stmtId.None? && |columns| != |stmt.columns| + 1) {
      return false;
    }
    var i := 0;
    while i < |columns|
      invariant 0 <= i <= |columns|
      invariant forall j :: 0 <= j < i ==> ColumnProvided(columns, stmt, j)
    {
      if !(existingId == Some(i) && stmtId.None?) {
        var matchIndex := FindColumnIndex(stmt.columns, columns[i]);
        if matchIndex.None? {
          assert !ColumnProvided(columns, stmt, i);
          return false;
        }
      }
      i := i + 1;
    }
    return true;
  }

  /** The loop of `storage_insert` that puts the values in column order. */
  method OrderValues(columns: seq<string>, stmt: InsertStatement, existingId: Option<nat>, stmtId: Option<nat>,
                     autoId: string)
    returns (ordered: seq<string>)
    requires |stmt.values| == |stmt.columns| && SchemaAccepts(columns, stmt)
    requires existingId == FirstNamed(columns, "id") && stmtId == FirstNamed(stmt.columns, "id")
    ensures ordered == OrderedValues(columns, stmt, autoId)
  {
    ordered := [];
    var i := 0;
    while i < |columns|
      invariant 0 <= i <= |columns| && |ordered| == i
      invariant forall j :: 0 <= j < i ==>
        ColumnProvided(columns, stmt, j) && ordered[j] == ValueFor(columns, stmt, autoId, j)
    {
      assert ColumnProvided(columns, stmt, i);
      if existingId == Some(i) && stmtId.None? {
        ordered := ordered + [autoId];
      } else {
        var matchIndex := FindColumnIndex(stmt.columns, columns[i]);
        ordered := ordered + [stmt.values[matchIndex.value]];
      }
      i := i + 1;
    }
  }

  method WriteFirstLines(header: seq<string>, row: seq<string>) returns (file: File)
    ensures file == Lines(EncodeRow(header) + ['\n'] + EncodeRow(row) + ['\n'])
  {
    var text := WriteCsvRow("", header);
    text := WriteCsvRow(text, row);
    assert text == EncodeRow(header) + ['\n'] + EncodeRow(row) + ['\n'];
    file := Lines(text);
  }

  /** The data directory. */
  class Disk {
    var files: map<string, File>

    constructor (files: map<string, File>)
      ensures this.files == files
    {
      this.files := files;
    }

    /** `fopen` in mode "a+": a missing file reads as empty. */
    function Content(name: string): (file: File)
      reads this
    {
      if name in files then files[name] else []
    }

    /** The branch of `storage_insert` for a file without header. */
    method InsertIntoEmpty(name: string, stmt: InsertStatement) returns (ok: bool)
      requires |stmt.values| == |stmt.columns| <= MAX_COLUMNS && Content(name) == []
      modifies this
      ensures ok == AfterInsert([], stmt).Some?
      ensures files == old(files)[name := if ok then AfterInsert([], stmt).value else []]
    {
      files := files[name := []];
      var stmtId := FindColumnIndex(stmt.columns, "id");
      var header, row := stmt.columns, stmt.values;
      if stmtId.None? {
        if |stmt.columns| + 1 > MAX_COLUMNS {
          return false;
        }
        header, row := ["id"] + stmt.columns, ["1"] + stmt.values;
      }
      ok := ValidatePrimaryKey([], header, row);
      if ok {
        var file := WriteFirstLines(header, row);
        files := files[name := file];
      }
    }

    /** The branch of `storage_insert` for a table with a header. */
    method InsertIntoTable(name: string, stmt: InsertStatement, columns: seq<string>) returns (ok: bool)
      requires |stmt.values| == |stmt.columns|
      requires Content(name) != [] && ReadHeader(Content(name)) == Some(columns)
      modifies this
      ensures ok == AfterInsert(old(Content(name)), stmt).Some?
      ensures files == if ok then old(files)[name := AfterInsert(old(Content(name)), stmt).value] else old(files)
    {
      hide ReadHeader, ScanNextId, KeyUnused, SchemaAccepts, EncodeRow, LinesFrom, FirstNamed;
      var file := Content(name);
      var existingId := FindColumnIndex(columns, "id");
      var stmtId := FindColumnIndex(stmt.columns, "id");
      var accepted := CheckSchema(columns, stmt, existingId, stmtId);
      if !accepted {
        return false;
      }
      var autoId := "";
      var automatic := existingId.Some? && stmtId.None?;
      if automatic {
        var next := GetNextAutoId(file, columns, existingId.value);
        if next.None? {
          return false;
        }
        autoId := Decimal(next.value);
      }
      var ordered := OrderValues(columns, stmt, existingId, stmtId, autoId);
      if !automatic {
        var unused := ValidatePrimaryKey(DataLines(file), columns, ordered);
        if !unused {
          return false;
        }
      }
      var text := WriteCsvRow("", ordered);
      assert "" + EncodeRow(ordered) == EncodeRow(ordered);
      files := files[name := file + Lines(text)];
      return true;
    }

    /** `storage_insert`. Opening the file for appending creates it, so a rejected
        insert into a missing table leaves an empty file behind. */
    method Insert(name: string, stmt: InsertStatement) returns (ok: bool)
      requires |stmt.values| == |stmt.columns| <= MAX_COLUMNS
      modifies this
      ensures ok == AfterInsert(old(Content(name)), stmt).Some?
      ensures files == old(files)[name := if ok then AfterInsert(old(Content(name)), stmt).value
        else old(Content(name))]
    {
      var file := Content(name);
      var columns := ReadHeaderLine(file);
      if columns.None? {
        return false;
      }
      if columns.value == [] {
        ok := InsertIntoEmpty(name, stmt);
      } else {
        ok := InsertIntoTable(name, stmt, columns.value);
      }
    }
  }
}
