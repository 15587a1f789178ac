/** Which lines the CSV reader accepts, and as what: a grammar of plain and quoted pieces,
    over the characters themselves, that the reader follows exactly. */
module CsvFields {
  import opened Text
  import opened Csv

  /** A stretch of a field outside quotes, or between a pair of them. */
  datatype Piece = Plain(text: string) | Quoted(text: string)

  predicate IsPlain(c: char) {
    c != ',' && c != '"' && c != '\n' && c != '\r'
  }

  predicate PieceOk(p: Piece) {
    match p
    case Plain(text) => text != "" && forall i :: 0 <= i < |text| ==> IsPlain(text[i])
    case Quoted(text) => '\n' !in text && '\r' !in text
  }

  /** Two quoted pieces in a row would read as one with a quote between them. */
  predicate FieldOk(field: seq<Piece>) {
    && (forall i :: 0 <= i < |field| ==> PieceOk(field[i]))
    && forall i :: 0 < i < |field| ==> field[i - 1].Plain? || field[i].Plain?
  }

  function WritePiece(p: Piece): (text: string) {
    match p
    case Plain(text) => text
    case Quoted(text) => "\"" + Doubled(text) + "\""
  }

  function WriteField(field: seq<Piece>): (text: string) {
    if field == [] then "" else WritePiece(field[0]) + WriteField(field[1..])
  }

  function ValueOf(field: seq<Piece>): (value: string) {
    if field == [] then "" else field[0].text + ValueOf(field[1..])
  }

  function WriteLine(fields: seq<seq<Piece>>): (text: string)
    requires fields != []
  {
    if |fields| == 1 then WriteField(fields[0]) else WriteField(fields[0]) + "," + WriteLine(fields[1..])
  }

  function Values(fields: seq<seq<Piece>>): (values: seq<string>)
    ensures |values| == |fields|
  {
    seq(|fields|, i requires 0 <= i < |fields| => ValueOf(fields[i]))
  }

  predicate FieldsOk(fields: seq<seq<Piece>>) {
    fields != [] && forall i :: 0 <= i < |fields| ==> FieldOk(fields[i])
  }

  /** What the reader does not look at: nothing, or a line break and what follows. */
  predicate IsTail(tail: string) {
    tail == "" || tail[0] == '\n' || tail[0] == '\r'
  }

  // ---- what is written so is read ---------------------------------------------------------

  lemma PlainIsNotSpecial(c: char)
    ensures IsPlain(c) <==> !IsSpecial(c)
    ensures IsBreak(c) <==> c == '\n' || c == '\r'
  {
  }

  lemma QuoteOpens(text: string, cell: string)
    ensures ParseFrom(['"'] + text, cell, false) == ParseFrom(text, cell, true)
  {
    assert (['"'] + text)[1..] == text;
  }

  lemma PieceIsRead(p: Piece, cell: string, rest: string)
    requires PieceOk(p) && (p.Quoted? ==> rest == "" || rest[0] != '"')
    ensures ParseFrom(WritePiece(p) + rest, cell, false) == ParseFrom(rest, cell + p.text, false)
  {
    hide ParseFrom, Doubled;
    match p
    case Plain(text) =>
      forall i | 0 <= i < |text| ensures !IsSpecial(text[i]) {
        PlainIsNotSpecial(text[i]);
      }
      ParsePlain(text, cell, rest);
    case Quoted(text) =>
      forall i | 0 <= i < |text| ensures !IsBreak(text[i]) {
        PlainIsNotSpecial(text[i]);
      }
      var inner := Doubled(text) + ['"'] + rest;
      QuoteOpens(inner, cell);
      assert WritePiece(p) + rest == ['"'] + inner;
      ParseDoubled(text, cell, rest);
  }

  lemma StartsPlain(field: seq<Piece>, rest: string)
    requires FieldOk(field) && (field == [] || field[0].Plain?) && (rest == "" || rest[0] != '"')
    ensures var text := WriteField(field) + rest; text == "" || text[0] != '"'
  {
    hide Doubled;
  }

  lemma {:induction false} FieldIsRead(field: seq<Piece>, cell: string, rest: string)
    requires FieldOk(field) && (rest == "" || rest[0] != '"')
    ensures ParseFrom(WriteField(field) + rest, cell, false) == ParseFrom(rest, cell + ValueOf(field), false)
  {
    hide ParseFrom, WritePiece, PieceOk;
    if field == [] {
      assert WriteField(field) + rest == rest && cell + ValueOf(field) == cell;
    } else {
      var p, later := field[0], WriteField(field[1..]) + rest;
      JoinTwice(WritePiece(p), WriteField(field[1..]), rest);
      if p.Quoted? {
        assert |field| > 1 ==> field[1 - 1].Plain? || field[1].Plain?;
        StartsPlain(field[1..], rest);
      }
      PieceIsRead(p, cell, later);
      FieldIsRead(field[1..], cell + p.text, rest);
      JoinTwice(cell, p.text, ValueOf(field[1..]));
    }
  }

  lemma CommaEnds(text: string, cell: string)
    ensures ParseFrom("," + text, cell, false) == Prepend([cell], ParseFrom(text, "", false))
  {
    assert ("," + text)[1..] == text;
  }

  lemma TailEnds(tail: string, cell: string)
    requires IsTail(tail)
    ensures ParseFrom(tail, cell, false) == Some([cell])
  {
  }

  /** A line of such fields is read as their values, whatever follows its line break. */
  lemma {:induction false} FieldsAreRead(fields: seq<seq<Piece>>, tail: string)
    requires FieldsOk(fields) && IsTail(tail)
    ensures ParseLine(WriteLine(fields) + tail) == Some(Values(fields))
    decreases |fields|
  {
    hide ParseFrom, WriteField, ValueOf, FieldOk;
    var first, value := WriteField(fields[0]), ValueOf(fields[0]);
    assert "" + value == value;
    if |fields| == 1 {
      FieldIsRead(fields[0], "", tail);
      TailEnds(tail, value);
      assert Values(fields) == [value];
    } else {
      var later := WriteLine(fields[1..]) + tail;
      assert WriteLine(fields) + tail == first + ("," + later);
      FieldIsRead(fields[0], "", "," + later);
      CommaEnds(later, value);
      FieldsAreRead(fields[1..], tail);
      assert Values(fields) == [value] + Values(fields[1..]);
    }
  }

  // ---- what is read is written so -----------------------------------------------------------

  /** Where an open quote closes. */
  lemma {:induction false} QuoteCloses(line: string, cell: string) returns (quoted: string, rest: string)
    requires ParseFrom(line, cell, true).Some?
    ensures line == Doubled(quoted) + "\"" + rest && (rest == "" || rest[0] != '"') && PieceOk(Quoted(quoted))
    ensures ParseFrom(line, cell, true) == ParseFrom(rest, cell + quoted, false)
    decreases |line|
  {
    if |line| >= 2 && line[0] == '"' && line[1] == '"' {
      var more;
      more, rest := QuoteCloses(line[2..], cell + ['"']);
      quoted := ['"'] + more;
      QuotedOneMore(line, ['"', '"'], '"', more, rest, cell);
    } else if line[0] == '"' {
      quoted, rest := "", line[1..];
      assert line == ['"'] + rest && cell + "" == cell;
    } else {
      var more;
      more, rest := QuoteCloses(line[1..], cell + [line[0]]);
      quoted := [line[0]] + more;
      QuotedOneMore(line, [line[0]], line[0], more, rest, cell);
    }
  }

  lemma QuotedOneMore(line: string, head: string, c: char, more: string, rest: string, cell: string)
    requires head <= line && line[|head|..] == Doubled(more) + "\"" + rest
    requires head == if c == '"' then ['"', '"'] else [c]
    ensures line == Doubled([c] + more) + "\"" + rest && cell + [c] + more == cell + ([c] + more)
  {
    assert ([c] + more)[1..] == more;
    assert line == head + line[|head|..];
  }

  /** The pieces of a line outside quotes, after `cell` has been collected. */
  lemma {:induction false} LineIsWritten(line: string, cell: string) returns (fields: seq<seq<Piece>>, tail: string)
    requires ParseFrom(line, cell, false).Some?
    ensures FieldsOk(fields) && IsTail(tail) && line == WriteLine(fields) + tail
    ensures ParseFrom(line, cell, false).value == [cell + ValueOf(fields[0])] + Values(fields[1..])
    decreases |line|
  {
    hide FieldOk, WriteField, ValueOf, WriteLine;
    if line == "" || IsBreak(line[0]) {
      fields, tail := [[]], line;
      NoPieces(line, cell);
    } else if line[0] == ',' {
      var later;
      later, tail := LineIsWritten(line[1..], "");
      fields := [[]] + later;
      EmptyFirst(line, cell, later, tail);
    } else if line[0] == '"' {
      var quoted, rest := QuoteCloses(line[1..], cell);
      var later;
      later, tail := LineIsWritten(rest, cell + quoted);
      fields := later[0 := [Quoted(quoted)] + later[0]];
      QuotedFirst(line, cell, quoted, rest, later, tail);
    } else {
      var later;
      later, tail := LineIsWritten(line[1..], cell + [line[0]]);
      fields := later[0 := OnePlain(line[0], later[0])];
      PlainFirst(line, cell, later, tail);
    }
  }

  lemma NoPieces(line: string, cell: string)
    requires line == "" || IsBreak(line[0])
    ensures FieldsOk([[]]) && IsTail(line) && line == WriteLine([[]]) + line
    ensures [cell] == [cell + ValueOf([[]][0])] + Values([[]][1..])
  {
    assert cell + "" == cell;
  }

  lemma WithEmpty(later: seq<seq<Piece>>)
    requires FieldsOk(later)
    ensures var fields := [[]] + later;
            FieldsOk(fields) && WriteLine(fields) == "," + WriteLine(later) && fields[0] == [] && fields[1..] == later
  {
    hide FieldOk, WriteField;
    var fields := [[]] + later;
    assert fields[1..] == later && FieldOk([]) && WriteField([]) == "" by { NoPieces("", ""); }
    assert "" + "," == ",";
  }

  lemma EmptyFirst(line: string, cell: string, later: seq<seq<Piece>>, tail: string)
    requires line != "" && line[0] == ',' && FieldsOk(later) && line[1..] == WriteLine(later) + tail
    ensures FieldsOk([[]] + later) && line == WriteLine([[]] + later) + tail
    ensures Values(later) == ["" + ValueOf(later[0])] + Values(later[1..])
    ensures [cell] + Values(later) == [cell + ValueOf(([[]] + later)[0])] + Values(([[]] + later)[1..])
  {
    hide WriteLine, FieldOk;
    WithEmpty(later);
    assert line == [line[0]] + line[1..];
    JoinTwice(",", WriteLine(later), tail);
    assert "" + ValueOf(later[0]) == ValueOf(later[0]);
    assert cell + "" == cell;
  }

  /** A change of the first field changes the start of the line. */
  lemma FirstChanged(fields: seq<seq<Piece>>, field: seq<Piece>, head: string)
    requires fields != [] && WriteField(field) == head + WriteField(fields[0])
    ensures WriteLine(fields[0 := field]) == head + WriteLine(fields)
    ensures fields[0 := field][1..] == fields[1..]
  {
    hide WriteField;
  }

  lemma WithQuoted(quoted: string, field: seq<Piece>)
    requires PieceOk(Quoted(quoted)) && FieldOk(field) && (field == [] || field[0].Plain?)
    ensures var longer := [Quoted(quoted)] + field;
            FieldOk(longer) && WriteField(longer) == WritePiece(Quoted(quoted)) + WriteField(field)
            && ValueOf(longer) == quoted + ValueOf(field)
  {
    hide Doubled, PieceOk;
    var longer := [Quoted(quoted)] + field;
    assert longer[1..] == field;
    forall i | 0 < i < |longer| ensures longer[i - 1].Plain? || longer[i].Plain? {
      assert i > 1 ==> field[i - 2].Plain? || field[i - 1].Plain?;
    }
  }

  /** What does not start with a quote does not start with a quoted piece. */
  lemma FirstIsPlain(fields: seq<seq<Piece>>, tail: string)
    requires FieldsOk(fields) && var text := WriteLine(fields) + tail; text == "" || text[0] != '"'
    ensures fields[0] == [] || fields[0][0].Plain?
  {
    hide Doubled;
    if fields[0] != [] && fields[0][0].Quoted? {
      assert WriteField(fields[0])[0] == '"';
      FirstOfLine(fields, tail);
    }
  }

  lemma QuotedFirst(line: string, cell: string, quoted: string, rest: string, later: seq<seq<Piece>>, tail: string)
    requires line != "" && line[0] == '"' && line[1..] == Doubled(quoted) + "\"" + rest
    requires (rest == "" || rest[0] != '"') && PieceOk(Quoted(quoted))
    requires FieldsOk(later) && rest == WriteLine(later) + tail
    ensures var fields := later[0 := [Quoted(quoted)] + later[0]];
            && FieldsOk(fields) && line == WriteLine(fields) + tail && fields[1..] == later[1..]
            && cell + quoted + ValueOf(later[0]) == cell + ValueOf(fields[0])
  {
    hide Doubled, WriteLine, WriteField, FieldOk, ValueOf, PieceOk;
    FirstIsPlain(later, tail);
    WithQuoted(quoted, later[0]);
    FirstChanged(later, [Quoted(quoted)] + later[0], WritePiece(Quoted(quoted)));
    assert line == ['"'] + line[1..];
    assert line == WritePiece(Quoted(quoted)) + rest;
    JoinTwice(WritePiece(Quoted(quoted)), WriteLine(later), tail);
    JoinTwice(cell, quoted, ValueOf(later[0]));
  }

  lemma FirstOfLine(fields: seq<seq<Piece>>, tail: string)
    requires fields != [] && WriteField(fields[0]) != ""
    ensures (WriteLine(fields) + tail)[0] == WriteField(fields[0])[0]
  {
    hide WriteField;
  }

  /** The field with one more plain character in front. */
  function OnePlain(c: char, field: seq<Piece>): (longer: seq<Piece>) {
    if field != [] && field[0].Plain? then [Plain([c] + field[0].text)] + field[1..] else [Plain([c])] + field
  }

  lemma OnePlainOk(c: char, field: seq<Piece>)
    requires FieldOk(field) && IsPlain(c)
    ensures FieldOk(OnePlain(c, field)) && WriteField(OnePlain(c, field)) == [c] + WriteField(field)
    ensures ValueOf(OnePlain(c, field)) == [c] + ValueOf(field)
  {
    hide Doubled;
    var longer := OnePlain(c, field);
    forall i | 0 < i < |longer| ensures longer[i - 1].Plain? || longer[i].Plain? {
      if field != [] && field[0].Plain? {
        assert field[i - 1].Plain? || field[i].Plain?;
      } else if i > 1 {
        assert field[i - 2].Plain? || field[i - 1].Plain?;
      }
    }
    if field != [] && field[0].Plain? {
      assert longer[1..] == field[1..];
      JoinTwice([c], field[0].text, WriteField(field[1..]));
      JoinTwice([c], field[0].text, ValueOf(field[1..]));
    } else {
      assert longer[1..] == field;
    }
  }

  lemma PlainFirst(line: string, cell: string, later: seq<seq<Piece>>, tail: string)
    requires line != "" && IsPlain(line[0]) && FieldsOk(later) && line[1..] == WriteLine(later) + tail
    ensures var fields := later[0 := OnePlain(line[0], later[0])];
            && FieldsOk(fields) && line == WriteLine(fields) + tail && fields[1..] == later[1..]
            && cell + [line[0]] + ValueOf(later[0]) == cell + ValueOf(fields[0])
  {
    hide WriteField, ValueOf, FieldOk, OnePlain, WriteLine;
    OnePlainOk(line[0], later[0]);
    FirstChanged(later, OnePlain(line[0], later[0]), [line[0]]);
    assert line == [line[0]] + line[1..];
    JoinTwice([line[0]], WriteLine(later), tail);
    JoinTwice(cell, [line[0]], ValueOf(later[0]));
  }

  /** The reader follows the grammar exactly: it reads a line as some cells if and only if
      the line is a writing of those cells, up to its first line break outside quotes. */
  lemma ReaderIsExact(line: string, cells: seq<string>)
    ensures ParseLine(line) == Some(cells) <==>
            exists fields, tail :: IsWriting(line, fields, tail) && Values(fields) == cells
  {
    hide ParseFrom, WriteLine, FieldOk, ValueOf, IsTail;
    if ParseLine(line) == Some(cells) {
      var fields, tail := LineIsWritten(line, "");
      assert "" + ValueOf(fields[0]) == ValueOf(fields[0]);
      assert Values(fields) == [ValueOf(fields[0])] + Values(fields[1..]);
      assert IsWriting(line, fields, tail);
    }
    if fields, tail :| IsWriting(line, fields, tail) && Values(fields) == cells {
      FieldsAreRead(fields, tail);
    }
  }

  predicate IsWriting(line: string, fields: seq<seq<Piece>>, tail: string) {
    FieldsOk(fields) && IsTail(tail) && line == WriteLine(fields) + tail
  }

  // ---- what the writer chooses ---------------------------------------------------------------

  /** A cell is written bare unless it has a comma, a quote or a line break, and then as
      one quoted piece. */
  lemma CellIsWritten(cell: string)
    ensures EncodeCell(cell) == if forall i :: 0 <= i < |cell| ==> IsPlain(cell[i]) then cell
                                else WritePiece(Quoted(cell))
  {
    forall i | 0 <= i < |cell| ensures IsPlain(cell[i]) <==> !IsSpecial(cell[i]) {
      PlainIsNotSpecial(cell[i]);
    }
    hide IsPlain, IsSpecial, Doubled;
  }

  /** The pieces the writer makes of a cell. */
  function FieldFor(cell: string): (field: seq<Piece>) {
    if cell == "" then []
    else if forall i :: 0 <= i < |cell| ==> IsPlain(cell[i]) then [Plain(cell)] else [Quoted(cell)]
  }

  lemma FieldForIs(cell: string)
    ensures WriteField(FieldFor(cell)) == EncodeCell(cell) && ValueOf(FieldFor(cell)) == cell
  {
    hide Doubled, IsPlain, EncodeCell;
    CellIsWritten(cell);
    var field := FieldFor(cell);
    if field != [] {
      assert field[1..] == [];
    }
  }

  function FieldsFor(cells: seq<string>): (fields: seq<seq<Piece>>)
    ensures |fields| == |cells|
  {
    seq(|cells|, i requires 0 <= i < |cells| => FieldFor(cells[i]))
  }

  /** A row is written as its cells with commas between them. */
  lemma {:induction false} RowIsWritten(cells: seq<string>)
    requires cells != []
    ensures EncodeRow(cells) == WriteLine(FieldsFor(cells)) && Values(FieldsFor(cells)) == cells
  {
    hide FieldFor, WriteField, ValueOf, EncodeCell;
    FieldForIs(cells[0]);
    var fields := FieldsFor(cells);
    forall i | 0 <= i < |cells| ensures Values(fields)[i] == cells[i] {
      FieldForIs(cells[i]);
    }
    if |cells| > 1 {
      assert fields[1..] == FieldsFor(cells[1..]);
      RowIsWritten(cells[1..]);
    }
  }
}
