/** The index over one column of a loaded table (`index_build`, `index_query_equals` and
    `index_query_range` in src/db/index.c), against linear scans of the column. */
module OffsetIndex {
  import opened Text
  import opened Statements
  import opened EngineModel
  import opened Answers
  import opened HashIndex
  import opened RangeIndex

  /** A loaded table: its rows and the offset of each in the file. */
  datatype IndexedTable = IndexedTable(width: nat, rows: seq<seq<string>>, offsets: seq<int>)

  predicate TableOk(t: IndexedTable) {
    Rectangular(t.rows, t.width) && |t.offsets| == |t.rows|
  }

  /** The column's cells with their rows' offsets, in row order. */
  function Column(t: IndexedTable, c: nat): (entries: seq<RangeEntry>)
    requires TableOk(t) && c < t.width
    ensures |entries| == |t.rows|
  {
    seq(|t.rows|, i requires 0 <= i < |t.rows| => RangeEntry(t.rows[i][c], t.offsets[i]))
  }

  function OffsetsOf(entries: seq<RangeEntry>): (offsets: seq<int>)
    ensures |offsets| == |entries|
  {
    seq(|entries|, i requires 0 <= i < |entries| => entries[i].offset)
  }

  class TableIndex {
    const columnIndex: int
    const equality: EqualityIndex
    var range: seq<RangeEntry>

    /** The index shows these cells. */
    ghost predicate Shows(entries: seq<RangeEntry>)
      reads this, equality, equality.buckets, equality.nodes
    {
      equality.Valid() && equality.contents == Built(entries) && range == SortEntries(entries)
    }

    constructor (column: int)
      ensures columnIndex == column && fresh(equality) && fresh(equality.buckets)
      ensures Shows([]) && equality.nodes == {}
    {
      columnIndex := column;
      equality := new EqualityIndex();
      range := [];
    }

    /** One row's entry in the hash table. */
    method AddRow(key: string, offset: int, ghost entries: seq<RangeEntry>)
      requires equality.Valid() && equality.contents == Built(entries)
      modifies equality, equality.buckets, equality.nodes
      ensures equality.Valid() && fresh(equality.nodes - old(equality.nodes))
      ensures equality.contents == Built(entries + [RangeEntry(key, offset)])
    {
      hide EqualityIndex.Valid, Added;
      equality.Add(key, offset);
      assert (entries + [RangeEntry(key, offset)])[..|entries|] == entries;
    }

    /** `index_query_equals`: the offsets of the rows whose cell equals the value, in row
        order. */
    method QueryEquals(value: string, ghost entries: seq<RangeEntry>) returns (offsets: seq<int>)
      requires Shows(entries)
      ensures offsets == EqualOffsets(entries, value)
    {
      hide Lookup, EqualOffsets, SortEntries;
      offsets := equality.Query(value);
      LookupIsScan(entries, value);
    }

    /** The `!=` branch of `index_query_range`. */
    method QueryNotEqual(value: string, ghost entries: seq<RangeEntry>) returns (offsets: seq<int>)
      requires Shows(entries)
      ensures offsets == OffsetsOf(Filter(SortEntries(entries), "!=", value))
    {
      hide EqualityIndex.Valid, SortEntries, Compare;
      offsets := [];
      var i := 0;
      while i < |range|
        invariant 0 <= i <= |range| && offsets == OffsetsOf(Filter(range[..i], "!=", value))
      {
        var sign := CompareValues(range[i].key, value);
        FilterJoins(range[..i], [range[i]], "!=", value);
        assert range[..i + 1] == range[..i] + [range[i]];
        assert [range[i]][1..] == [];
        if sign != 0 {
          offsets := offsets + [range[i].offset];
        }
        i := i + 1;
      }
      assert range[..i] == range;
    }

    /** `index_query_range`; None for an operator it does not know. */
    method QueryRange(op: string, value: string, ghost entries: seq<RangeEntry>) returns (offsets: Option<seq<int>>)
      requires Shows(entries)
      ensures op == "!=" ==> offsets == Some(OffsetsOf(Filter(SortEntries(entries), op, value)))
      ensures IsRangeOp(op) ==> offsets == Some(OffsetsOf(Slice(SortEntries(entries), op, value)))
      ensures op != "!=" && !IsRangeOp(op) ==> offsets == None
    {
      hide EqualityIndex.Valid, SortEntries, Compare, Bound, Filter;
      if op == "!=" {
        var different := QueryNotEqual(value, entries);
        return Some(different);
      }
      var start, end := 0, |range|;
      if op == ">" {
        start := UpperBound(range, value);
      } else if op == ">=" {
        start := LowerBound(range, value);
      } else if op == "<" {
        end := LowerBound(range, value);
      } else if op == "<=" {
        end := UpperBound(range, value);
      } else {
        return None;
      }
      var found := CopyOffsets(range, start, end);
      assert range[start..end] == Slice(range, op, value);
      return Some(found);
    }
  }

  /** The copying loop at the end of `index_query_range`. */
  method CopyOffsets(entries: seq<RangeEntry>, start: nat, end: nat) returns (offsets: seq<int>)
    requires start <= end <= |entries|
    ensures offsets == OffsetsOf(entries[start..end])
  {
    offsets := [];
    var i := 0;
    while i < end - start
      invariant 0 <= i <= end - start && offsets == OffsetsOf(entries[start..start + i])
    {
      offsets := offsets + [entries[start + i].offset];
      i := i + 1;
    }
  }

  /** `index_build`; the sort is an insertion sort with the comparator given to `qsort`. */
  method Build(t: IndexedTable, column: int) returns (index: TableIndex?)
    requires TableOk(t)
    ensures index != null
            <==> 0 <= column < t.width && forall i :: 0 <= i < |t.rows| ==> |t.rows[i][column]| <= 255
    ensures index != null ==> fresh(index) && index.columnIndex == column && index.Shows(Column(t, column))
  {
    hide EqualityIndex.Valid, SortEntries, Built;
    if column < 0 || column >= t.width {
      return null;
    }
    ghost var all := Column(t, column);
    index := new TableIndex(column);
    var entries: seq<RangeEntry>, i := [], 0;
    while i < |t.rows|
      invariant 0 <= i <= |t.rows| && entries == all[..i]
      invariant fresh(index) && index.columnIndex == column
      invariant fresh(index.equality) && fresh(index.equality.buckets) && fresh(index.equality.nodes)
      invariant index.equality.Valid() && index.equality.contents == Built(entries)
      invariant forall k :: 0 <= k < i ==> FitsValue(t.rows[k][column])
    {
      var key := t.rows[i][column];
      index.AddRow(key, t.offsets[i], entries);
      if |key| >= MAX_VALUE_LEN {
        return null;
      }
      assert all[..i + 1] == all[..i] + [RangeEntry(key, t.offsets[i])];
      entries := entries + [RangeEntry(key, t.offsets[i])];
      i := i + 1;
    }
    assert all[..i] == all;
    index.range := SortEntries(entries);
  }

  // ---- against linear scans -----------------------------------------------------------

  lemma {:induction false} OffsetsOfPermutation(a: seq<RangeEntry>, b: seq<RangeEntry>)
    requires multiset(a) == multiset(b)
    ensures multiset(OffsetsOf(a)) == multiset(OffsetsOf(b))
    decreases |a|
  {
    if a == [] {
      assert |b| == |multiset(b)| == |multiset(a)| == 0;
    } else {
      hide OffsetsOf;
      var n := |a| - 1;
      RemoveOne(a, n);
      assert a[n] in multiset(b);
      var i :| 0 <= i < |b| && b[i] == a[n];
      RemoveOne(b, i);
      var rest := b[..i] + b[i + 1..];
      assert a[..n] + a[n + 1..] == a[..n];
      DropOne(multiset(a[..n]), multiset(rest), a[n]);
      OffsetsOfPermutation(a[..n], rest);
      OffsetsOfParts(a, n);
      OffsetsOfParts(b, i);
    }
  }

  lemma RemoveOne(b: seq<RangeEntry>, i: nat)
    requires i < |b|
    ensures multiset(b) == multiset(b[..i] + b[i + 1..]) + multiset{b[i]}
  {
    assert b == b[..i] + [b[i]] + b[i + 1..];
  }

  lemma DropOne(x: multiset<RangeEntry>, y: multiset<RangeEntry>, e: RangeEntry)
    requires x + multiset{e} == y + multiset{e}
    ensures x == y
  {
    forall z ensures x[z] == y[z] {
      assert (x + multiset{e})[z] == (y + multiset{e})[z];
    }
  }

  lemma OffsetsOfParts(b: seq<RangeEntry>, i: nat)
    requires i < |b|
    ensures multiset(OffsetsOf(b)) == multiset(OffsetsOf(b[..i] + b[i + 1..])) + multiset{b[i].offset}
  {
    assert OffsetsOf(b) == OffsetsOf(b[..i]) + [b[i].offset] + OffsetsOf(b[i + 1..]);
    assert OffsetsOf(b[..i] + b[i + 1..]) == OffsetsOf(b[..i]) + OffsetsOf(b[i + 1..]);
  }

  /** `!=` is right for every table and value; an ordering operator is right when the
      column's cells are of one kind. */
  lemma IndexAgreesWithScan(entries: seq<RangeEntry>, op: string, value: string)
    requires op == "!=" || (IsRangeOp(op) && Uniform(entries, value))
    ensures var found := if op == "!=" then Filter(SortEntries(entries), op, value)
      else Slice(SortEntries(entries), op, value);
            multiset(OffsetsOf(found)) == multiset(OffsetsOf(Filter(entries, op, value)))
  {
    hide Filter, SortEntries, Slice, OffsetsOf, Uniform;
    if op == "!=" {
      SortIsPermutation(entries);
      FilterOfPermutation(SortEntries(entries), entries, op, value);
      OffsetsOfPermutation(Filter(SortEntries(entries), op, value), Filter(entries, op, value));
    } else {
      RangeQuerySelects(entries, op, value);
      OffsetsOfPermutation(Slice(SortEntries(entries), op, value), Filter(entries, op, value));
    }
  }

  // ---- in terms of the table's rows -----------------------------------------------------

  /** `offsets` are the file offsets of the picked rows, in row order. */
  predicate AreOffsetsOf(t: IndexedTable, picked: seq<nat>, offsets: seq<int>) {
    && Increasing(picked) && |offsets| == |picked|
    && forall i :: 0 <= i < |picked| ==> picked[i] < |t.offsets| && offsets[i] == t.offsets[picked[i]]
  }

  lemma ColumnSoFar(t: IndexedTable, c: nat, n: nat)
    requires TableOk(t) && c < t.width && n < |t.rows|
    ensures Column(t, c)[..n + 1] == Column(t, c)[..n] + [RangeEntry(t.rows[n][c], t.offsets[n])]
  {
  }

  lemma OneMorePicked(t: IndexedTable, picked: seq<nat>, offsets: seq<int>, n: nat)
    requires AreOffsetsOf(t, picked, offsets) && n < |t.offsets| && forall i :: 0 <= i < |picked| ==> picked[i] < n
    ensures AreOffsetsOf(t, picked + [n], offsets + [t.offsets[n]])
  {
  }

  lemma {:induction false} EqualSoFar(t: IndexedTable, c: nat, value: string, n: nat) returns (picked: seq<nat>)
    requires TableOk(t) && c < t.width && n <= |t.rows|
    ensures AreOffsetsOf(t, picked, EqualOffsets(Column(t, c)[..n], value))
    ensures forall i :: 0 <= i < |picked| ==> picked[i] < n
    ensures forall r :: 0 <= r < n ==> (r in picked <==> t.rows[r][c] == value)
  {
    hide AreOffsetsOf, Column;
    if n == 0 {
      picked := [];
      assert AreOffsetsOf(t, [], []) by { NothingFound(t); }
    } else {
      picked := EqualSoFar(t, c, value, n - 1);
      ColumnSoFar(t, c, n - 1);
      assert Column(t, c)[..n][..n - 1] == Column(t, c)[..n - 1];
      if t.rows[n - 1][c] == value {
        OneMorePicked(t, picked, EqualOffsets(Column(t, c)[..n - 1], value), n - 1);
        picked := picked + [n - 1];
      } else {
        var before := EqualOffsets(Column(t, c)[..n - 1], value);
        assert before + [] == before;
      }
    }
  }

  lemma NothingFound(t: IndexedTable)
    ensures AreOffsetsOf(t, [], [])
  {
  }

  /** The equality query returns the offsets of the rows whose cell in the column is the
      value, in row order. */
  lemma EqualityFindsRows(t: IndexedTable, c: nat, value: string) returns (picked: seq<nat>)
    requires TableOk(t) && c < t.width
    ensures AreOffsetsOf(t, picked, EqualOffsets(Column(t, c), value))
    ensures forall r :: 0 <= r < |t.rows| ==> (r in picked <==> t.rows[r][c] == value)
  {
    hide AreOffsetsOf, EqualOffsets;
    picked := EqualSoFar(t, c, value, |t.rows|);
    assert Column(t, c)[..|t.rows|] == Column(t, c);
  }

  lemma NothingFiltered(op: string, value: string)
    ensures OffsetsOf(Filter([], op, value)) == []
  {
  }

  lemma FilteredLast(before: seq<RangeEntry>, e: RangeEntry, op: string, value: string)
    ensures OffsetsOf(Filter(before + [e], op, value))
            == OffsetsOf(Filter(before, op, value)) + if Meets(e.key, op, value) then [e.offset] else []
  {
    hide Meets, Compare, OpHolds;
    FilterJoins(before, [e], op, value);
    OpHoldsExactly(e.key, op, value);
    assert [e][1..] == [] && Filter([e], op, value) == if Meets(e.key, op, value) then [e] else [];
  }

  lemma {:induction false} FilterSoFar(t: IndexedTable, c: nat, op: string, value: string, n: nat)
    returns (picked: seq<nat>)
    requires TableOk(t) && c < t.width && n <= |t.rows|
    ensures AreOffsetsOf(t, picked, OffsetsOf(Filter(Column(t, c)[..n], op, value)))
    ensures forall i :: 0 <= i < |picked| ==> picked[i] < n
    ensures forall r :: 0 <= r < n ==> (r in picked <==> Meets(t.rows[r][c], op, value))
  {
    hide AreOffsetsOf, Column, Meets, Filter, OffsetsOf;
    if n == 0 {
      picked := [];
      assert Column(t, c)[..0] == [];
      NothingFiltered(op, value);
      NothingFound(t);
    } else {
      picked := FilterSoFar(t, c, op, value, n - 1);
      var before, e := Column(t, c)[..n - 1], RangeEntry(t.rows[n - 1][c], t.offsets[n - 1]);
      ColumnSoFar(t, c, n - 1);
      FilteredLast(before, e, op, value);
      if Meets(e.key, op, value) {
        OneMorePicked(t, picked, OffsetsOf(Filter(before, op, value)), n - 1);
        picked := picked + [n - 1];
      } else {
        assert OffsetsOf(Filter(before, op, value)) + [] == OffsetsOf(Filter(before, op, value));
      }
    }
  }

  /** The linear filter of the column, against which the range queries are stated, finds
      the offsets of the rows whose cell meets the condition. */
  lemma FilterFindsRows(t: IndexedTable, c: nat, op: string, value: string) returns (picked: seq<nat>)
    requires TableOk(t) && c < t.width
    ensures AreOffsetsOf(t, picked, OffsetsOf(Filter(Column(t, c), op, value)))
    ensures forall r :: 0 <= r < |t.rows| ==> (r in picked <==> Meets(t.rows[r][c], op, value))
  {
    hide AreOffsetsOf, Filter, OffsetsOf, Meets;
    picked := FilterSoFar(t, c, op, value, |t.rows|);
    assert Column(t, c)[..|t.rows|] == Column(t, c);
  }

  // ---- exactly when the offsets are right ---------------------------------------------

  /** No two rows of a file start at the same offset. */
  predicate DistinctOffsets(entries: seq<RangeEntry>) {
    forall i, j :: 0 <= i < j < |entries| ==> entries[i].offset != entries[j].offset
  }

  /** Among the rows, an offset stands for its row. */
  lemma {:induction false} OffsetCounts(some: seq<RangeEntry>, rows: seq<RangeEntry>, e: RangeEntry)
    requires DistinctOffsets(rows) && e in rows && forall x :: x in some ==> x in rows
    ensures multiset(OffsetsOf(some))[e.offset] == multiset(some)[e]
    decreases |some|
  {
    if some != [] {
      var n := |some| - 1;
      OffsetCounts(some[..n], rows, e);
      assert some == some[..n] + [some[n]] && some[n] in rows;
      assert OffsetsOf(some) == OffsetsOf(some[..n]) + [some[n].offset];
    }
  }

  lemma SameOffsetsSameRows(a: seq<RangeEntry>, b: seq<RangeEntry>, rows: seq<RangeEntry>)
    requires DistinctOffsets(rows) && multiset(a) <= multiset(rows) && multiset(b) <= multiset(rows)
    ensures multiset(OffsetsOf(a)) == multiset(OffsetsOf(b)) <==> multiset(a) == multiset(b)
  {
    MembersOf(a, rows);
    MembersOf(b, rows);
    if multiset(OffsetsOf(a)) == multiset(OffsetsOf(b)) {
      forall e ensures multiset(a)[e] == multiset(b)[e] {
        if e in rows {
          OffsetCounts(a, rows, e);
          OffsetCounts(b, rows, e);
        } else {
          assert e !in multiset(rows);
        }
      }
    }
    if multiset(a) == multiset(b) {
      OffsetsOfPermutation(a, b);
    }
  }

  lemma MembersOf(a: seq<RangeEntry>, rows: seq<RangeEntry>)
    requires multiset(a) <= multiset(rows)
    ensures forall x :: x in a ==> x in rows
  {
    forall x | x in a ensures x in rows {
      assert x in multiset(a) && x in multiset(rows);
    }
  }

  /** The offsets that the four ordering queries return are those of the linear scan. */
  ghost predicate OffsetsAreScanned(rows: seq<RangeEntry>, value: string) {
    forall op :: IsRangeOp(op) ==>
      multiset(OffsetsOf(Slice(SortEntries(rows), op, value))) == multiset(OffsetsOf(Filter(rows, op, value)))
  }

  /** Exactly when the built index returns the offsets of a linear scan for a value: when
      the sorted keys rise past it. */
  lemma OrderingOffsetsExactly(rows: seq<RangeEntry>, value: string)
    requires DistinctOffsets(rows)
    ensures OffsetsAreScanned(rows, value) <==> SignsRise(SortEntries(rows), value)
  {
    hide SignsRise, Slice, Filter, SortEntries, DistinctOffsets, OffsetsOf;
    forall op | IsRangeOp(op)
      ensures multiset(OffsetsOf(Slice(SortEntries(rows), op, value))) == multiset(OffsetsOf(Filter(rows, op, value)))
              <==> multiset(Slice(SortEntries(rows), op, value)) == multiset(Filter(rows, op, value))
    {
      SliceOfRows(rows, op, value);
      FilterOfRows(rows, op, value);
      SameOffsetsSameRows(Slice(SortEntries(rows), op, value), Filter(rows, op, value), rows);
    }
    SortedQueriesExactly(rows, value);
    assert IsRangeOp("<") && IsRangeOp("<=") && IsRangeOp(">") && IsRangeOp(">=");
  }

  lemma SliceOfRows(rows: seq<RangeEntry>, op: string, value: string)
    requires IsRangeOp(op)
    ensures multiset(Slice(SortEntries(rows), op, value)) <= multiset(rows)
  {
    hide SortEntries, Bound;
    var sorted := SortEntries(rows);
    SortIsPermutation(rows);
    var k := if op == "<"
      || op == ">=" then Bound(sorted, value, false, 0, |sorted|) else Bound(sorted, value, true, 0, |sorted|);
    assert sorted == sorted[..k] + sorted[k..];
  }

  lemma FilterOfRows(rows: seq<RangeEntry>, op: string, value: string)
    ensures multiset(Filter(rows, op, value)) <= multiset(rows)
  {
    hide Filter, OpHolds, Compare;
    forall e ensures multiset(Filter(rows, op, value))[e] <= multiset(rows)[e] {
      FilterCounts(rows, op, value, e);
    }
  }

  // ---- equality -------------------------------------------------------------------------

  /** Every row that the scan takes for equal has the value's own text. */
  predicate SpelledAlike(entries: seq<RangeEntry>, value: string) {
    forall i :: 0 <= i < |entries| ==> Compare(entries[i].key, value) == 0 ==> entries[i].key == value
  }

  /** The hash finds only rows that the scan finds, and fewer when one is spelled
      differently. */
  lemma {:induction false} EqualityFindsFewer(entries: seq<RangeEntry>, value: string)
    ensures |EqualOffsets(entries, value)| <= |Filter(entries, "=", value)|
    ensures SpelledAlike(entries, value) ==> EqualOffsets(entries, value) == OffsetsOf(Filter(entries, "=", value))
    ensures !SpelledAlike(entries, value) ==> |EqualOffsets(entries, value)| < |Filter(entries, "=", value)|
    decreases |entries|
  {
    hide Compare;
    if entries != [] {
      var n := |entries| - 1;
      EqualityFindsFewer(entries[..n], value);
      FilterJoins(entries[..n], [entries[n]], "=", value);
      assert entries == entries[..n] + [entries[n]] && [entries[n]][1..] == [];
      CompareSelf(value);
      AlikeSoFar(entries, value);
    }
  }

  lemma AlikeSoFar(entries: seq<RangeEntry>, value: string)
    requires entries != []
    ensures var n := |entries| - 1;
            SpelledAlike(entries, value)
            <==> SpelledAlike(entries[..n], value) && (Compare(entries[n].key, value) == 0 ==> entries[n].key == value)
  {
    hide Compare;
    var n := |entries| - 1;
    assert entries == entries[..n] + [entries[n]];
  }

  /** Exactly when the equality query answers as the scan does: when no row is equal to
      the value as a number without being equal to it as a text. */
  lemma EqualityAgreesExactly(entries: seq<RangeEntry>, value: string)
    ensures EqualOffsets(entries, value) == OffsetsOf(Filter(entries, "=", value)) <==> SpelledAlike(entries, value)
  {
    hide Compare, EqualOffsets, Filter, SpelledAlike;
    EqualityFindsFewer(entries, value);
  }

  /** In particular when the value or every row's text is no integer. */
  lemma EqualityAgreesWithScan(entries: seq<RangeEntry>, value: string)
    requires !IsIntegerText(value) || NoIntegers(entries)
    ensures EqualOffsets(entries, value) == OffsetsOf(Filter(entries, "=", value))
  {
    hide Compare, IsIntegerText;
    forall i | 0 <= i < |entries| && Compare(entries[i].key, value) == 0 ensures entries[i].key == value {
      CompareIsText(entries[i].key, value);
    }
    EqualityAgreesExactly(entries, value);
  }

  lemma CompareIsText(key: string, value: string)
    requires !IsIntegerText(value) || !IsIntegerText(key)
    ensures Compare(key, value) == 0 <==> key == value
  {
    StrCmpOrder(key, value, value);
  }

  /** A leading zero is enough: the scan takes 01 for 1, the hash does not. */
  lemma LeadingZeroIsMissed(offset: int)
    ensures EqualOffsets([RangeEntry("01", offset)], "1") == []
    ensures OffsetsOf(Filter([RangeEntry("01", offset)], "=", "1")) == [offset]
  {
    assert IsIntegerText("01") && IsIntegerText("1");
    assert DigitsValue("1") == 1 by { assert "1"[..0] == ""; }
    assert DigitsValue("01") == 1 by {
      assert "01"[..1] == "0" && "0"[..0] == "";
      assert DigitsValue("0") == 0;
    }
    assert Compare("01", "1") == 0;
    assert [RangeEntry("01", offset)][1..] == [] && [RangeEntry("01", offset)][..0] == [];
  }
}
