/** One CSV record as src/db/storage.c writes and reads it: quoting as in section 2
    of RFC 4180, except that a record always ends at the first line break. */
module Csv {
  import opened Text

  const MAX_LINE: nat := 16384

  predicate IsBreak(c: char) {
    c == '\n' || c == '\r'
  }

  predicate NoBreaks(s: string) {
    forall i :: 0 <= i < |s| ==> !IsBreak(s[i])
  }

  predicate NoBreaksInAny(cells: seq<string>) {
    forall i :: 0 <= i < |cells| ==> NoBreaks(cells[i])
  }

  // ---- writing -------------------------------------------------------------------

  predicate IsSpecial(c: char) {
    c == ',' || c == '"' || IsBreak(c)
  }

  predicate NeedsQuotes(value: string) {
    exists i :: 0 <= i < |value| && IsSpecial(value[i])
  }

  /** The text with every double quote written twice. */
  function Doubled(value: string): (text: string) {
    if value == "" then ""
    else (if value[0] == '"' then ['"', '"'] else [value[0]]) + Doubled(value[1..])
  }

  function EncodeCell(value: string): (text: string) {
    if NeedsQuotes(value) then ['"'] + Doubled(value) + ['"'] else value
  }

  function EncodeRow(cells: seq<string>): (text: string) {
    if cells == [] then ""
    else if |cells| == 1 then EncodeCell(cells[0])
    else EncodeCell(cells[0]) + [','] + EncodeRow(cells[1..])
  }

  lemma {:induction false} DoubledAppend(a: string, c: char)
    ensures Doubled(a + [c]) == Doubled(a) + if c == '"' then ['"', '"'] else [c]
  {
    if a != "" {
      assert (a + [c])[1..] == a[1..] + [c];
      DoubledAppend(a[1..], c);
    } else {
      assert (a + [c])[1..] == "";
    }
  }

  lemma {:induction false} EncodeRowAppend(cells: seq<string>, cell: string)
    requires cells != []
    ensures EncodeRow(cells + [cell]) == EncodeRow(cells) + [','] + EncodeCell(cell)
  {
    if |cells| > 1 {
      assert (cells + [cell])[1..] == cells[1..] + [cell];
      EncodeRowAppend(cells[1..], cell);
    } else {
      assert (cells + [cell])[1..] == [cell];
    }
  }

  /** The scan at the head of `storage_write_csv_value`. */
  method CheckNeedsQuotes(value: string) returns (needsQuotes: bool)
    ensures needsQuotes == NeedsQuotes(value)
  {
    var i := 0;
    while i < |value|
      invariant 0 <= i <= |value|
      invariant forall j :: 0 <= j < i ==> !IsSpecial(value[j])
    {
      if value[i] == ',' || value[i] == '"' || value[i] == '\n' || value[i] == '\r' {
        return true;
      }
      i := i + 1;
    }
    return false;
  }

  /** `storage_write_csv_value`, the stream being the text written so far. */
  method WriteCsvValue(stream: string, value: string) returns (after: string)
    ensures after == stream + EncodeCell(value)
  {
    var needsQuotes := CheckNeedsQuotes(value);
    if !needsQuotes {
      return stream + value;
    }
    after := stream + ['"'];
    ghost var head := after;
    assert head == head + Doubled(value[..0]);
    var i := 0;
    while i < |value|
      invariant 0 <= i <= |value|
      invariant after == head + Doubled(value[..i])
    {
      hide Doubled;
      assert value[..i + 1] == value[..i] + [value[i]];
      DoubledAppend(value[..i], value[i]);
      JoinTwice(head, Doubled(value[..i]), if value[i] == '"' then ['"', '"'] else [value[i]]);
      if value[i] == '"' {
        after := after + ['"', '"'];
      } else {
        after := after + [value[i]];
      }
      i := i + 1;
    }
    hide Doubled;
    assert value[..i] == value;
    after := after + ['"'];
    JoinTwice(stream, ['"'], Doubled(value));
    JoinTwice(stream, ['"'] + Doubled(value), ['"']);
  }

  /** `storage_write_csv_row`. */
  method WriteCsvRow(stream: string, values: seq<string>) returns (after: string)
    ensures after == stream + EncodeRow(values) + ['\n']
  {
    after := stream;
    var i := 0;
    while i < |values|
      invariant 0 <= i <= |values|
      invariant after == stream + EncodeRow(values[..i])
    {
      assert values[..i + 1] == values[..i] + [values[i]];
      if i > 0 {
        EncodeRowAppend(values[..i], values[i]);
        after := after + [','];
      }
      after := WriteCsvValue(after, values[i]);
      i := i + 1;
    }
    assert values[..i] == values;
    after := after + ['\n'];
  }

  // ---- reading ---------------------------------------------------------------------

  /** The fields read from `rest` when `cell` has been collected already and the
      cursor is inside or outside quotes; nothing for a malformed line. */
  function ParseFrom(rest: string, cell: string, inQuotes: bool): (fields: Option<seq<string>>)
    ensures fields.Some? ==> |fields.value| >= 1
    decreases |rest|
  {
    var atEnd := rest == "" || IsBreak(rest[0]);
    if inQuotes then
      if |rest| >= 2 && rest[0] == '"' && rest[1] == '"' then ParseFrom(rest[2..], cell + ['"'], true)
      else if rest != "" && rest[0] == '"' then ParseFrom(rest[1..], cell, false)
      else if atEnd then None
      else ParseFrom(rest[1..], cell + [rest[0]], true)
    else if rest != "" && rest[0] == '"' then ParseFrom(rest[1..], cell, true)
    else if atEnd then Some([cell])
    else if rest[0] == ',' then Prepend([cell], ParseFrom(rest[1..], "", false))
    else ParseFrom(rest[1..], cell + [rest[0]], false)
  }

  function ParseLine(line: string): (found: Option<seq<string>>) {
    ParseFrom(line, "", false)
  }

  /** `storage_parse_csv_line`. */
  method ParseCsvLine(line: string) returns (result: Option<seq<string>>)
    ensures result == ParseLine(line)
  {
    var fields: seq<string> := [];
    var current := "";
    var inQuotes := false;
    var i := 0;
    PrependNothing(ParseLine(line));
    assert line[0..] == line;
    while true
      invariant 0 <= i <= |line|
      invariant ParseLine(line) == Prepend(fields, ParseFrom(line[i..], current, inQuotes))
      decreases |line| - i
    {
      ghost var rest := line[i..];
      var atEnd := i == |line| || line[i] == '\n' || line[i] == '\r';
      if inQuotes {
        if i + 1 < |line| && line[i] == '"' && line[i + 1] == '"' {
          assert rest[2..] == line[i + 2..];
          current := current + ['"'];
          i := i + 2;
        } else if i < |line| && line[i] == '"' {
          assert rest[1..] == line[i + 1..];
          inQuotes := false;
          i := i + 1;
        } else if atEnd {
          return None;
        } else {
          assert rest[1..] == line[i + 1..];
          current := current + [line[i]];
          i := i + 1;
        }
      } else if i < |line| && line[i] == '"' {
        assert rest[1..] == line[i + 1..];
        inQuotes := true;
        i := i + 1;
      } else if atEnd {
        return Some(fields + [current]);
      } else if line[i] == ',' {
        assert rest[1..] == line[i + 1..];
        PrependTwice(fields, [current], ParseFrom(rest[1..], "", false));
        fields := fields + [current];
        current := "";
        i := i + 1;
      } else {
        assert rest[1..] == line[i + 1..];
        current := current + [line[i]];
        i := i + 1;
      }
    }
  }

  // ---- round trip --------------------------------------------------------------------

  lemma {:induction false} ParsePlain(value: string, cell: string, rest: string)
    requires forall i :: 0 <= i < |value| ==> !IsSpecial(value[i])
    ensures ParseFrom(value + rest, cell, false) == ParseFrom(rest, cell + value, false)
    decreases |value|
  {
    if value == "" {
      assert value + rest == rest && cell + value == cell;
    } else {
      assert (value + rest)[1..] == value[1..] + rest;
      ParsePlain(value[1..], cell + [value[0]], rest);
      assert cell + [value[0]] + value[1..] == cell + value;
    }
  }

  lemma {:induction false} ParseDoubled(value: string, cell: string, rest: string)
    requires NoBreaks(value) && (rest == "" || rest[0] != '"')
    ensures ParseFrom(Doubled(value) + ['"'] + rest, cell, true) == ParseFrom(rest, cell + value, false)
    decreases |value|
  {
    var text := Doubled(value) + ['"'] + rest;
    if value == "" {
      assert text == ['"'] + rest && text[1..] == rest && cell + value == cell;
    } else {
      var tail := Doubled(value[1..]) + ['"'] + rest;
      if value[0] == '"' {
        assert text == ['"', '"'] + tail && text[2..] == tail;
      } else {
        assert text == [value[0]] + tail && text[1..] == tail;
      }
      ParseDoubled(value[1..], cell + [value[0]], rest);
      assert cell + [value[0]] + value[1..] == cell + value;
    }
  }

  lemma OpenQuote(text: string)
    ensures ParseFrom(['"'] + text, "", false) == ParseFrom(text, "", true)
  {
    assert (['"'] + text)[1..] == text;
  }

  /** A written cell reads back as itself, whatever comes after the separator. */
  lemma ParseEncodedCell(value: string, rest: string)
    requires NoBreaks(value) && (rest == "" || rest[0] != '"')
    ensures ParseFrom(EncodeCell(value) + rest, "", false) == ParseFrom(rest, value, false)
  {
    hide Doubled, ParseFrom;
    assert "" + value == value;
    if NeedsQuotes(value) {
      var inner := Doubled(value) + ['"'] + rest;
      OpenQuote(inner);
      assert ['"'] + inner == EncodeCell(value) + rest;
      ParseDoubled(value, "", rest);
    } else {
      ParsePlain(value, "", rest);
    }
  }

  lemma NextCell(text: string, cell: string)
    ensures ParseFrom([','] + text, cell, false) == Prepend([cell], ParseFrom(text, "", false))
  {
    assert ([','] + text)[1..] == text;
  }

  lemma LastCell(cell: string)
    ensures ParseFrom("", cell, false) == Some([cell])
  {
  }

  lemma {:induction false} ParseEncodedRow(cells: seq<string>)
    requires cells != [] && NoBreaksInAny(cells)
    ensures ParseLine(EncodeRow(cells)) == Some(cells)
  {
    hide ParseFrom, EncodeCell, NoBreaks;
    var rest := if |cells| == 1 then "" else [','] + EncodeRow(cells[1..]);
    assert EncodeRow(cells) == EncodeCell(cells[0]) + rest by {
      JoinTwice(EncodeCell(cells[0]), [','], EncodeRow(cells[1..]));
    }
    hide EncodeRow;
    ParseEncodedCell(cells[0], rest);
    if |cells| > 1 {
      ParseEncodedRow(cells[1..]);
      NextCell(EncodeRow(cells[1..]), cells[0]);
      assert [cells[0]] + cells[1..] == cells;
    } else {
      LastCell(cells[0]);
      assert [cells[0]] == cells;
    }
  }

  /** A break inside quotes is where the reader gives up. */
  lemma {:induction false} ParseBrokenQuoted(value: string, cell: string, rest: string)
    requires !NoBreaks(value)
    ensures ParseFrom(Doubled(value) + rest, cell, true).None?
    decreases |value|
  {
    var text := Doubled(value) + rest;
    if !IsBreak(value[0]) {
      var tail := Doubled(value[1..]) + rest;
      if value[0] == '"' {
        assert text == ['"', '"'] + tail && text[2..] == tail;
      } else {
        assert text == [value[0]] + tail && text[1..] == tail;
      }
      assert !NoBreaks(value[1..]) by {
        var i :| 0 <= i < |value| && IsBreak(value[i]);
        assert value[1..][i - 1] == value[i];
      }
      ParseBrokenQuoted(value[1..], cell + [value[0]], rest);
    }
  }

  lemma {:induction false} ParseBrokenRow(cells: seq<string>, rest: string)
    requires !NoBreaksInAny(cells)
    ensures ParseLine(EncodeRow(cells) + rest).None?
  {
    var first := cells[0];
    var tail := if |cells| == 1 then rest else [','] + (EncodeRow(cells[1..]) + rest);
    assert EncodeRow(cells) + rest == EncodeCell(first) + tail;
    if NoBreaks(first) {
      assert |cells| > 1 && !NoBreaksInAny(cells[1..]) by {
        var i :| 0 <= i < |cells| && !NoBreaks(cells[i]);
        assert cells[1..][i - 1] == cells[i];
      }
      ParseEncodedCell(first, tail);
      assert tail[1..] == EncodeRow(cells[1..]) + rest;
      ParseBrokenRow(cells[1..], rest);
    } else {
      ParseBrokenCell(first, tail);
    }
  }

  /** A cell with a break is written in quotes, and not read past the break. */
  lemma ParseBrokenCell(cell: string, tail: string)
    requires !NoBreaks(cell)
    ensures ParseFrom(EncodeCell(cell) + tail, "", false).None?
  {
    hide ParseFrom, Doubled;
    var i :| 0 <= i < |cell| && IsBreak(cell[i]);
    assert IsSpecial(cell[i]) && NeedsQuotes(cell);
    var inner := Doubled(cell) + (['"'] + tail);
    assert EncodeCell(cell) + tail == ['"'] + inner;
    OpenQuote(inner);
    ParseBrokenQuoted(cell, "", ['"'] + tail);
  }

  /** Exactly the non-empty records without line breaks survive being written and read. */
  lemma RoundTripExactly(cells: seq<string>)
    ensures ParseLine(EncodeRow(cells)) == Some(cells) <==> cells != [] && NoBreaksInAny(cells)
  {
    if cells != [] {
      if NoBreaksInAny(cells) {
        ParseEncodedRow(cells);
      } else {
        ParseBrokenRow(cells, "");
        assert EncodeRow(cells) + "" == EncodeRow(cells);
      }
    } else {
      assert |ParseLine("").value| == 1;
    }
  }

  // ---- line length --------------------------------------------------------------------

  lemma {:induction false} DoubledLength(value: string)
    ensures |value| <= |Doubled(value)| <= 2 * |value|
  {
    if value != "" {
      DoubledLength(value[1..]);
    }
  }

  lemma {:induction false} EncodedLength(cells: seq<string>, bound: nat)
    requires forall i :: 0 <= i < |cells| ==> |cells[i]| <= bound
    ensures |EncodeRow(cells)| <= |cells| * (2 * bound + 3)
  {
    if cells != [] {
      DoubledLength(cells[0]);
      if |cells| > 1 {
        EncodedLength(cells[1..], bound);
        SumOfProducts(|cells| - 1, 2 * bound + 3);
      }
    }
  }

  lemma SumOfProducts(n: nat, step: nat)
    ensures n * step + step == (n + 1) * step
  {
  }

  /** Every row the runtime can write, id and up to 31 values of up to 255
      characters, fits the reader's line buffer with its newline and NUL. */
  lemma RowFitsLineBuffer(id: nat, values: seq<string>)
    requires id <= INT_MAX && |values| <= 31
    requires forall i :: 0 <= i < |values| ==> |values[i]| <= 255
    ensures |EncodeRow([Decimal(id)] + values)| + 2 <= MAX_LINE
  {
    DecimalLength(id);
    DoubledLength(Decimal(id));
    var row := [Decimal(id)] + values;
    assert row[1..] == values;
    EncodedLength(values, 255);
    assert |values| * 513 <= 31 * 513;
  }
}
