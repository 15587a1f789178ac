/** The range index (src/db/index.c): a sorted array of (cell, offset) pairs searched by
    two binary searches, and exactly when its answers are those of a linear filter. */
module RangeIndex {
  import opened Text
  import opened EngineModel
  import opened HashIndex

  /** `index_compare_range_entries`: by value, then by offset. */
  function CompareEntries(a: RangeEntry, b: RangeEntry): (n: int) {
    var comparison := Compare(a.key, b.key);
    if comparison != 0 then comparison
    else if a.offset < b.offset then -1
    else if a.offset > b.offset then 1
    else 0
  }

  // ---- sorting ----------------------------------------------------------------------

  /** Insertion before the first entry that is not smaller. */
  function Inserted(entry: RangeEntry, sorted: seq<RangeEntry>): (kept: seq<RangeEntry>) {
    if sorted == [] || CompareEntries(entry, sorted[0]) <= 0 then [entry] + sorted
    else [sorted[0]] + Inserted(entry, sorted[1..])
  }

  function SortEntries(entries: seq<RangeEntry>): (kept: seq<RangeEntry>) {
    if entries == [] then [] else Inserted(entries[0], SortEntries(entries[1..]))
  }

  lemma {:induction false} InsertedSame(entry: RangeEntry, sorted: seq<RangeEntry>)
    ensures multiset(Inserted(entry, sorted)) == multiset(sorted) + multiset{entry}
  {
    if sorted != [] && CompareEntries(entry, sorted[0]) > 0 {
      InsertedSame(entry, sorted[1..]);
      assert sorted == [sorted[0]] + sorted[1..];
    }
  }

  /** Sorting loses and invents nothing, whatever the comparator does. */
  lemma {:induction false} SortIsPermutation(entries: seq<RangeEntry>)
    ensures multiset(SortEntries(entries)) == multiset(entries)
  {
    if entries != [] {
      SortIsPermutation(entries[1..]);
      InsertedSame(entries[0], SortEntries(entries[1..]));
      assert entries == [entries[0]] + entries[1..];
    }
  }

  // ---- where the comparator is an order --------------------------------------------------

  predicate NoIntegers(entries: seq<RangeEntry>) {
    forall i :: 0 <= i < |entries| ==> !IsIntegerText(entries[i].key)
  }

  predicate AllIntegers(entries: seq<RangeEntry>) {
    forall i :: 0 <= i < |entries| ==> IsIntegerText(entries[i].key)
  }

  lemma {:induction false} StrCmpOrder(a: string, b: string, c: string)
    ensures StrCmp(a, a) == 0 && StrCmp(a, b) == -StrCmp(b, a)
    ensures StrCmp(a, b) <= 0 && StrCmp(b, c) <= 0 ==> StrCmp(a, c) <= 0
    ensures StrCmp(a, b) == 0 ==> a == b
    decreases |a|
  {
    if a != [] && b != [] && c != [] {
      StrCmpOrder(a[1..], b[1..], c[1..]);
      assert a == [a[0]] + a[1..] && b == [b[0]] + b[1..];
    } else if a != [] && b != [] {
      StrCmpOrder(a[1..], b[1..], []);
      assert a == [a[0]] + a[1..] && b == [b[0]] + b[1..];
    } else if a != [] {
      StrCmpOrder(a[1..], [], []);
    }
  }

  predicate OneKind(a: string, b: string, c: string) {
    (IsIntegerText(a) <==> IsIntegerText(b)) && (IsIntegerText(b) <==> IsIntegerText(c))
  }

  /** On texts of one kind the comparison is a total preorder. */
  lemma CompareOrder(a: string, b: string, c: string)
    requires OneKind(a, b, c)
    ensures Compare(a, b) == -Compare(b, a)
    ensures Compare(a, b) <= 0 && Compare(b, c) <= 0 ==> Compare(a, c) <= 0
    ensures Compare(a, b) < 0 && Compare(b, c) <= 0 ==> Compare(a, c) < 0
    ensures Compare(a, b) <= 0 && Compare(b, c) < 0 ==> Compare(a, c) < 0
  {
    StrCmpOrder(a, b, c);
    StrCmpOrder(c, a, b);
    StrCmpOrder(b, c, a);
    hide StrCmp, ParseInteger, IsIntegerText;
  }

  lemma EntryOrder(a: RangeEntry, b: RangeEntry, c: RangeEntry)
    requires OneKind(a.key, b.key, c.key)
    ensures CompareEntries(a, b) > 0 ==> CompareEntries(b, a) <= 0
    ensures CompareEntries(a, b) <= 0 && CompareEntries(b, c) <= 0 ==> CompareEntries(a, c) <= 0
  {
    hide Compare;
    CompareOrder(a.key, b.key, c.key);
    CompareOrder(b.key, c.key, a.key);
  }

  predicate SortedEntries(entries: seq<RangeEntry>) {
    forall i, j :: 0 <= i < j < |entries| ==> CompareEntries(entries[i], entries[j]) <= 0
  }

  predicate SameKind(entries: seq<RangeEntry>, kind: bool) {
    forall i :: 0 <= i < |entries| ==> IsIntegerText(entries[i].key) == kind
  }

  lemma {:induction false} InsertedSorted(entry: RangeEntry, sorted: seq<RangeEntry>, kind: bool)
    requires SortedEntries(sorted) && SameKind(sorted, kind) && IsIntegerText(entry.key) == kind
    ensures SortedEntries(Inserted(entry, sorted)) && SameKind(Inserted(entry, sorted), kind)
    ensures forall e :: e in Inserted(entry, sorted) <==> e == entry || e in sorted
  {
    hide CompareEntries, IsIntegerText;
    if sorted != [] {
      var first, rest := sorted[0], sorted[1..];
      assert sorted == [first] + rest;
      if CompareEntries(entry, first) <= 0 {
        forall j | 0 <= j < |sorted| ensures CompareEntries(entry, sorted[j]) <= 0 {
          EntryOrder(entry, first, sorted[j]);
        }
      } else {
        InsertedSorted(entry, rest, kind);
        EntryOrder(entry, first, first);
        forall e | e in Inserted(entry, rest) ensures CompareEntries(first, e) <= 0 {
        }
      }
    }
  }

  lemma {:induction false} SortSortsKind(entries: seq<RangeEntry>, kind: bool)
    requires SameKind(entries, kind)
    ensures SortedEntries(SortEntries(entries)) && SameKind(SortEntries(entries), kind)
  {
    if entries != [] {
      SortSortsKind(entries[1..], kind);
      InsertedSorted(entries[0], SortEntries(entries[1..]), kind);
    }
  }

  // ---- binary search ------------------------------------------------------------------------

  function Middle(left: nat, right: nat): (middle: nat)
    requires left < right
    ensures left <= middle < right
  {
    left + (right - left) / 2
  }

  /** A key of this sign against the value lies left of the bound. */
  predicate GoesRight(sign: int, inclusive: bool) {
    sign < 0 || (inclusive && sign == 0)
  }

  /** What the binary search over [left, right) returns: `index_lower_bound`, or with
      `inclusive` `index_upper_bound`. */
  function Bound(entries: seq<RangeEntry>, value: string, inclusive: bool, left: nat, right: nat): (bound: nat)
    requires left <= right <= |entries|
    ensures left <= bound <= right
    decreases right - left
  {
    if left == right then left
    else
      var middle := Middle(left, right);
      var sign := Compare(entries[middle].key, value);
      if GoesRight(sign, inclusive) then Bound(entries, value, inclusive, middle + 1, right)
      else Bound(entries, value, inclusive, left, middle)
  }

  /** Along the array the keys go from below the value, through it, to above it. */
  predicate SignsRise(entries: seq<RangeEntry>, value: string) {
    forall i, j :: 0 <= i < j < |entries| ==> Compare(entries[i].key, value) <= Compare(entries[j].key, value)
  }

  /** What lies before a key that goes right, or after one that does not, does the same. */
  lemma SameSide(entries: seq<RangeEntry>, value: string, inclusive: bool, middle: nat, i: nat)
    requires SignsRise(entries, value) && middle < |entries| && i < |entries|
    requires var goes := GoesRight(Compare(entries[middle].key, value), inclusive); if goes then i <= middle
      else middle <= i
    ensures GoesRight(Compare(entries[i].key, value), inclusive)
      == GoesRight(Compare(entries[middle].key, value), inclusive)
  {
    hide Compare;
  }

  lemma {:induction false} BoundSplits(entries: seq<RangeEntry>, value: string, inclusive: bool, left: nat, right: nat)
    requires SignsRise(entries, value) && left <= right <= |entries|
    ensures var bound := Bound(entries, value, inclusive, left, right);
            forall i :: left <= i < right ==> (GoesRight(Compare(entries[i].key, value), inclusive) <==> i < bound)
    decreases right - left
  {
    hide Compare, SignsRise, GoesRight, Middle;
    if left < right {
      var middle := Middle(left, right);
      var goes := GoesRight(Compare(entries[middle].key, value), inclusive);
      forall i | left <= i < right && (if goes then i <= middle else middle <= i)
        ensures GoesRight(Compare(entries[i].key, value), inclusive) == goes
      {
        SameSide(entries, value, inclusive, middle, i);
      }
      if goes {
        BoundSplits(entries, value, inclusive, middle + 1, right);
      } else {
        BoundSplits(entries, value, inclusive, left, middle);
      }
    }
  }

  /** `index_lower_bound`: the last key before the result is below the value and the
      one at it is not, in any array; where the keys rise past the value, that parts
      the whole array. */
  method LowerBound(entries: seq<RangeEntry>, value: string) returns (left: nat)
    ensures left == Bound(entries, value, false, 0, |entries|) <= |entries|
    ensures left > 0 ==> Compare(entries[left - 1].key, value) < 0
    ensures left < |entries| ==> Compare(entries[left].key, value) >= 0
    ensures SignsRise(entries, value) ==> forall i :: 0 <= i < |entries| ==>
      (Compare(entries[i].key, value) < 0 <==> i < left)
  {
    hide Compare, SignsRise, Middle;
    var right := |entries|;
    left := 0;
    while left < right
      invariant left <= right <= |entries|
      invariant Bound(entries, value, false, left, right) == Bound(entries, value, false, 0, |entries|)
      invariant left > 0 ==> Compare(entries[left - 1].key, value) < 0
      invariant right < |entries| ==> Compare(entries[right].key, value) >= 0
    {
      var middle := Middle(left, right);
      var sign := CompareValues(entries[middle].key, value);
      if sign < 0 {
        left := middle + 1;
      } else {
        right := middle;
      }
    }
    if SignsRise(entries, value) {
      BoundSplits(entries, value, false, 0, |entries|);
    }
  }

  /** `index_upper_bound`, which also goes past the keys that equal the value. */
  method UpperBound(entries: seq<RangeEntry>, value: string) returns (left: nat)
    ensures left == Bound(entries, value, true, 0, |entries|) <= |entries|
    ensures left > 0 ==> Compare(entries[left - 1].key, value) <= 0
    ensures left < |entries| ==> Compare(entries[left].key, value) > 0
    ensures SignsRise(entries, value) ==> forall i :: 0 <= i < |entries| ==>
      (Compare(entries[i].key, value) <= 0 <==> i < left)
  {
    hide Compare, SignsRise, Middle;
    var right := |entries|;
    left := 0;
    while left < right
      invariant left <= right <= |entries|
      invariant Bound(entries, value, true, left, right) == Bound(entries, value, true, 0, |entries|)
      invariant left > 0 ==> Compare(entries[left - 1].key, value) <= 0
      invariant right < |entries| ==> Compare(entries[right].key, value) > 0
    {
      var middle := Middle(left, right);
      var sign := CompareValues(entries[middle].key, value);
      if sign <= 0 {
        left := middle + 1;
      } else {
        right := middle;
      }
    }
    if SignsRise(entries, value) {
      BoundSplits(entries, value, true, 0, |entries|);
    }
  }

  // ---- queries against a linear filter -----------------------------------------------------------

  predicate IsRangeOp(op: string) {
    op == "<" || op == "<=" || op == ">" || op == ">="
  }

  /** A linear filter with the comparison of the scan. */
  function Filter(entries: seq<RangeEntry>, op: string, value: string): (kept: seq<RangeEntry>) {
    if entries == [] then []
    else (if OpHolds(Compare(entries[0].key, value), op) then [entries[0]] else []) + Filter(entries[1..], op, value)
  }

  /** The entries `index_query_range` returns for an ordering operator. */
  function Slice(entries: seq<RangeEntry>, op: string, value: string): (kept: seq<RangeEntry>)
    requires IsRangeOp(op)
  {
    if op == ">" then entries[Bound(entries, value, true, 0, |entries|)..]
    else if op == ">=" then entries[Bound(entries, value, false, 0, |entries|)..]
    else if op == "<" then entries[..Bound(entries, value, false, 0, |entries|)]
    else entries[..Bound(entries, value, true, 0, |entries|)]
  }

  lemma {:induction false} FilterJoins(a: seq<RangeEntry>, b: seq<RangeEntry>, op: string, value: string)
    ensures Filter(a + b, op, value) == Filter(a, op, value) + Filter(b, op, value)
  {
    hide Compare, OpHolds;
    if a == [] {
      assert a + b == b;
      assert Filter(b, op, value) == [] + Filter(b, op, value);
    } else {
      assert (a + b)[1..] == a[1..] + b && (a + b)[0] == a[0];
      FilterJoins(a[1..], b, op, value);
      var first := if OpHolds(Compare(a[0].key, value), op) then [a[0]] else [];
      assert first + (Filter(a[1..], op, value) + Filter(b, op, value))
        == first + Filter(a[1..], op, value) + Filter(b, op, value);
    }
  }

  lemma {:induction false} FilterAll(entries: seq<RangeEntry>, op: string, value: string)
    requires forall i :: 0 <= i < |entries| ==> OpHolds(Compare(entries[i].key, value), op)
    ensures Filter(entries, op, value) == entries
  {
    hide Compare;
    if entries != [] {
      FilterAll(entries[1..], op, value);
    }
  }

  lemma {:induction false} FilterNone(entries: seq<RangeEntry>, op: string, value: string)
    ensures (forall i :: 0 <= i < |entries| ==> !OpHolds(Compare(entries[i].key, value), op))
            <==> Filter(entries, op, value) == []
  {
    hide Compare;
    if entries != [] {
      FilterNone(entries[1..], op, value);
    }
  }

  /** Cutting the array where the condition stops or starts to hold is filtering. */
  lemma CutIsFilter(entries: seq<RangeEntry>, op: string, value: string, k: nat, front: bool)
    requires k <= |entries|
    requires forall i :: 0 <= i < |entries| ==> (OpHolds(Compare(entries[i].key, value), op) <==> (i < k) == front)
    ensures Filter(entries, op, value) == if front then entries[..k] else entries[k..]
  {
    hide Compare, OpHolds;
    assert entries == entries[..k] + entries[k..];
    FilterJoins(entries[..k], entries[k..], op, value);
    if front {
      FilterAll(entries[..k], op, value);
      FilterNone(entries[k..], op, value);
    } else {
      FilterNone(entries[..k], op, value);
      FilterAll(entries[k..], op, value);
    }
  }

  lemma SliceIsFilter(entries: seq<RangeEntry>, op: string, value: string)
    requires IsRangeOp(op) && SignsRise(entries, value)
    ensures Slice(entries, op, value) == Filter(entries, op, value)
  {
    hide Compare, Filter, SignsRise, Bound;
    var n := |entries|;
    var lower, upper := Bound(entries, value, false, 0, n), Bound(entries, value, true, 0, n);
    BoundSplits(entries, value, false, 0, n);
    BoundSplits(entries, value, true, 0, n);
    if op == ">" {
      CutIsFilter(entries, op, value, upper, false);
    } else if op == ">=" {
      CutIsFilter(entries, op, value, lower, false);
    } else if op == "<" {
      CutIsFilter(entries, op, value, lower, true);
    } else {
      CutIsFilter(entries, op, value, upper, true);
    }
  }

  lemma {:induction false} FilterCounts(entries: seq<RangeEntry>, op: string, value: string, e: RangeEntry)
    ensures multiset(Filter(entries, op, value))[e]
            == if OpHolds(Compare(e.key, value), op) then multiset(entries)[e] else 0
  {
    hide Compare, OpHolds;
    if entries != [] {
      FilterCounts(entries[1..], op, value, e);
      assert entries == [entries[0]] + entries[1..];
    }
  }

  lemma FilterOfPermutation(a: seq<RangeEntry>, b: seq<RangeEntry>, op: string, value: string)
    requires multiset(a) == multiset(b)
    ensures multiset(Filter(a, op, value)) == multiset(Filter(b, op, value))
  {
    forall e ensures multiset(Filter(a, op, value))[e] == multiset(Filter(b, op, value))[e] {
      FilterCounts(a, op, value, e);
      FilterCounts(b, op, value, e);
    }
  }

  /** A front cut with exactly the filter's entries leaves no match behind it. */
  lemma FilterIsCut(entries: seq<RangeEntry>, op: string, value: string, k: nat)
    requires k <= |entries| && multiset(entries[..k]) == multiset(Filter(entries, op, value))
    ensures forall i :: 0 <= i < |entries| ==> (OpHolds(Compare(entries[i].key, value), op) <==> i < k)
  {
    hide Compare, OpHolds, Filter;
    assert entries == entries[..k] + entries[k..];
    forall i | 0 <= i < |entries| ensures OpHolds(Compare(entries[i].key, value), op) <==> i < k {
      var e := entries[i];
      FilterCounts(entries, op, value, e);
      assert multiset(entries)[e] == multiset(entries[..k])[e] + multiset(entries[k..])[e];
      if i < k {
        assert entries[..k][i] == e;
      } else {
        assert entries[k..][i - k] == e;
      }
    }
  }

  /** On the array, each of the four ordering queries for a value selects the rows that
      the linear filter selects. */
  predicate AnswersAreFilters(arranged: seq<RangeEntry>, rows: seq<RangeEntry>, value: string) {
    && multiset(Slice(arranged, "<", value)) == multiset(Filter(rows, "<", value))
    && multiset(Slice(arranged, "<=", value)) == multiset(Filter(rows, "<=", value))
    && multiset(Slice(arranged, ">", value)) == multiset(Filter(rows, ">", value))
    && multiset(Slice(arranged, ">=", value)) == multiset(Filter(rows, ">=", value))
  }

  lemma SliceSelects(arranged: seq<RangeEntry>, rows: seq<RangeEntry>, op: string, value: string)
    requires IsRangeOp(op) && SignsRise(arranged, value) && multiset(arranged) == multiset(rows)
    ensures multiset(Slice(arranged, op, value)) == multiset(Filter(rows, op, value))
  {
    hide Slice, Filter, SignsRise;
    SliceIsFilter(arranged, op, value);
    FilterOfPermutation(arranged, rows, op, value);
  }

  /** Whatever the order of the array, its queries for a value agree with the linear
      filter of the rows exactly when the keys rise past the value. */
  lemma RangeQueriesExactly(arranged: seq<RangeEntry>, rows: seq<RangeEntry>, value: string)
    requires multiset(arranged) == multiset(rows)
    ensures AnswersAreFilters(arranged, rows, value) <==> SignsRise(arranged, value)
  {
    hide Compare, Filter, Bound;
    if SignsRise(arranged, value) {
      hide SignsRise;
      SliceSelects(arranged, rows, "<", value);
      SliceSelects(arranged, rows, "<=", value);
      SliceSelects(arranged, rows, ">", value);
      SliceSelects(arranged, rows, ">=", value);
    } else if AnswersAreFilters(arranged, rows, value) {
      FilterOfPermutation(arranged, rows, "<", value);
      FilterOfPermutation(arranged, rows, "<=", value);
      FilterIsCut(arranged, "<", value, Bound(arranged, value, false, 0, |arranged|));
      FilterIsCut(arranged, "<=", value, Bound(arranged, value, true, 0, |arranged|));
    }
  }

  /** The same for the sorted array that the index builds from the rows. */
  lemma SortedQueriesExactly(rows: seq<RangeEntry>, value: string)
    ensures AnswersAreFilters(SortEntries(rows), rows, value) <==> SignsRise(SortEntries(rows), value)
  {
    hide AnswersAreFilters, SignsRise, SortEntries;
    SortIsPermutation(rows);
    RangeQueriesExactly(SortEntries(rows), rows, value);
  }

  predicate SortedKeys(entries: seq<RangeEntry>) {
    forall i, j :: 0 <= i < j < |entries| ==> Compare(entries[i].key, entries[j].key) <= 0
  }

  /** Right answers for every key of the array need a sorted array. */
  lemma RightMeansSorted(arranged: seq<RangeEntry>, rows: seq<RangeEntry>)
    requires multiset(arranged) == multiset(rows)
    requires forall k :: 0 <= k < |arranged| ==> AnswersAreFilters(arranged, rows, arranged[k].key)
    ensures SortedKeys(arranged)
  {
    hide AnswersAreFilters, Compare;
    forall i, j | 0 <= i < j < |arranged| ensures Compare(arranged[i].key, arranged[j].key) <= 0 {
      RangeQueriesExactly(arranged, rows, arranged[j].key);
      CompareSelf(arranged[j].key);
    }
  }

  lemma CompareSelf(a: string)
    ensures Compare(a, a) == 0
  {
    StrCmpOrder(a, a, a);
  }

  // ---- the sorted array of a table's cells ------------------------------------------------------

  /** The comparison of keys with this value is of one kind throughout. */
  predicate Uniform(entries: seq<RangeEntry>, value: string) {
    NoIntegers(entries) || (AllIntegers(entries) && IsIntegerText(value))
  }

  lemma RisingPair(a: string, b: string, value: string)
    requires Compare(a, b) <= 0
    requires (!IsIntegerText(a) && !IsIntegerText(b)) || OneKind(a, b, value)
    ensures Compare(a, value) <= Compare(b, value)
  {
    if OneKind(a, b, value) {
      CompareOrder(a, b, value);
    } else {
      StrCmpOrder(a, b, value);
      StrCmpOrder(b, value, a);
      StrCmpOrder(value, a, b);
    }
    hide StrCmp, IsIntegerText, ParseInteger;
  }

  lemma SortedRises(entries: seq<RangeEntry>, value: string)
    requires SortedEntries(entries) && Uniform(entries, value)
    ensures SignsRise(entries, value)
  {
    hide Compare, IsIntegerText;
    forall i, j | 0 <= i < j < |entries| ensures Compare(entries[i].key, value) <= Compare(entries[j].key, value) {
      assert CompareEntries(entries[i], entries[j]) <= 0;
      RisingPair(entries[i].key, entries[j].key, value);
    }
  }

  /** In a column of one kind, rows with equal cells stay in the order of their offsets. */
  lemma TiesByOffset(entries: seq<RangeEntry>, value: string, i: nat, j: nat)
    requires Uniform(entries, value) && i < j < |SortEntries(entries)|
    ensures var sorted := SortEntries(entries);
            && Compare(sorted[i].key, sorted[j].key) <= 0
            && (Compare(sorted[i].key, sorted[j].key) == 0 ==> sorted[i].offset <= sorted[j].offset)
  {
    hide Compare, SortEntries, Uniform;
    SortKeepsKind(entries, value);
    assert CompareEntries(SortEntries(entries)[i], SortEntries(entries)[j]) <= 0;
  }

  lemma SortKeepsKind(entries: seq<RangeEntry>, value: string)
    requires Uniform(entries, value)
    ensures SortedEntries(SortEntries(entries)) && Uniform(SortEntries(entries), value)
  {
    hide CompareEntries, IsIntegerText;
    if NoIntegers(entries) {
      assert SameKind(entries, false);
      SortSortsKind(entries, false);
    } else {
      assert SameKind(entries, true);
      SortSortsKind(entries, true);
    }
  }

  /** On keys of one kind, each ordering query on the sorted array selects exactly the
      rows that the linear filter selects. */
  lemma RangeQuerySelects(entries: seq<RangeEntry>, op: string, value: string)
    requires IsRangeOp(op) && Uniform(entries, value)
    ensures multiset(Slice(SortEntries(entries), op, value)) == multiset(Filter(entries, op, value))
  {
    hide Slice, Filter, Uniform, SortedEntries, SignsRise, SortEntries;
    SortKeepsKind(entries, value);
    SortedRises(SortEntries(entries), value);
    SortIsPermutation(entries);
    SliceSelects(SortEntries(entries), entries, op, value);
  }

  /** `<` and `>=` part the rows, and so do `<=` and `>`, whatever the keys. */
  lemma SlicesPartition(entries: seq<RangeEntry>, value: string)
    ensures multiset(Slice(SortEntries(entries), "<", value)) + multiset(Slice(SortEntries(entries), ">=", value))
      == multiset(entries)
    ensures multiset(Slice(SortEntries(entries), "<=", value)) + multiset(Slice(SortEntries(entries), ">", value))
      == multiset(entries)
  {
    hide SortEntries, Bound;
    var sorted := SortEntries(entries);
    SortIsPermutation(entries);
    assert Slice(sorted, "<", value) + Slice(sorted, ">=", value) == sorted;
    assert Slice(sorted, "<=", value) + Slice(sorted, ">", value) == sorted;
  }

  // ---- mixed keys ------------------------------------------------------------------------------------

  /** Numbers and texts together are not ordered: 9 < 10 as numbers, "10" < "1a" < "9" as
      texts. */
  lemma MixedKeysCycle()
    ensures Compare("10", "1a") < 0 && Compare("1a", "9") < 0 && Compare("9", "10") < 0
    ensures Compare("1a", "10") > 0 && Compare("9", "1a") > 0 && Compare("10", "9") > 0
  {
    assert DigitsOf("1a")[1] == 'a';
    assert !IsIntegerText("1a");
    assert "10"[1..] == "0" && "1a"[1..] == "a";
    assert IsIntegerText("10") && IsIntegerText("9");
    assert DigitsValue("10") == 10 by {
      assert "10"[..1] == "1" && "1"[..0] == "";
      assert DigitsValue("1") == 1;
    }
    assert DigitsValue("9") == 9 by { assert "9"[..0] == ""; }
  }

  /** So for such keys no order of the array is right: however it is sorted, some query
      for one of its own keys selects other rows than the filter. */
  lemma MixedKeysGoWrong(arranged: seq<RangeEntry>, rows: seq<RangeEntry>, a: int, b: int, c: int)
    requires rows == [RangeEntry("10", a), RangeEntry("1a", b), RangeEntry("9", c)]
    requires multiset(arranged) == multiset(rows)
    ensures exists k :: 0 <= k < |arranged| && !AnswersAreFilters(arranged, rows, arranged[k].key)
  {
    hide AnswersAreFilters, Compare;
    MixedKeysCycle();
    assert rows[0] in multiset(arranged) && rows[1] in multiset(arranged) && rows[2] in multiset(arranged);
    var i :| 0 <= i < |arranged| && arranged[i] == rows[0];
    var j :| 0 <= j < |arranged| && arranged[j] == rows[1];
    var k :| 0 <= k < |arranged| && arranged[k] == rows[2];
    ThreeInACycle(arranged, i, j, k);
    if forall m :: 0 <= m < |arranged| ==> AnswersAreFilters(arranged, rows, arranged[m].key) {
      RightMeansSorted(arranged, rows);
    }
  }

  lemma ThreeInACycle(entries: seq<RangeEntry>, i: nat, j: nat, k: nat)
    requires i < |entries| && j < |entries| && k < |entries| && i != j && j != k && i != k
    requires Compare(entries[j].key, entries[i].key) > 0 && Compare(entries[k].key, entries[j].key) > 0
    requires Compare(entries[i].key, entries[k].key) > 0
    ensures !SortedKeys(entries)
  {
    hide Compare;
  }
}
