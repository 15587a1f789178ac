/** The equality index (src/db/index.c): a chained hash table from a cell's text to the
    offsets of the rows that hold it. */
module HashIndex {
  import opened Text

  const HASH_BUCKET_COUNT: nat := 101
  const ULONG_LIMIT: nat := 0x1_0000_0000_0000_0000

  /** `index_hash_string` on 64-bit `unsigned long`, which wraps around. */
  function Hash(text: string): (hash: nat)
    ensures hash < ULONG_LIMIT
  {
    if text == "" then 5381
    else (33 * Hash(text[..|text| - 1]) + text[|text| - 1] as nat) % ULONG_LIMIT
  }

  function BucketOf(key: string): (b: nat)
    ensures b < HASH_BUCKET_COUNT
  {
    Hash(key) % HASH_BUCKET_COUNT
  }

  /** The wrapped shift-and-add is multiplication by 33. */
  lemma ShiftAndAdd(hash: nat, c: nat)
    ensures (32 * hash % ULONG_LIMIT + hash + c) % ULONG_LIMIT == (33 * hash + c) % ULONG_LIMIT
  {
    DropMultiple(33 * hash + c, 32 * hash / ULONG_LIMIT);
  }

  lemma {:induction false} DropMultiple(x: nat, q: nat)
    requires x >= q * ULONG_LIMIT
    ensures (x - q * ULONG_LIMIT) % ULONG_LIMIT == x % ULONG_LIMIT
    decreases q
  {
    if q > 0 {
      DropMultiple(x - ULONG_LIMIT, q - 1);
      assert (x - ULONG_LIMIT) % ULONG_LIMIT == x % ULONG_LIMIT;
    }
  }

  /** The characters as digits of a number in base 33, with 5381 in front. */
  function Base33(text: string): (number: nat) {
    if text == "" then 5381 else 33 * Base33(text[..|text| - 1]) + text[|text| - 1] as nat
  }

  lemma WrapOnce(x: nat, c: nat)
    ensures (33 * (x % ULONG_LIMIT) + c) % ULONG_LIMIT == (33 * x + c) % ULONG_LIMIT
  {
    DropMultiple(33 * x + c, 33 * (x / ULONG_LIMIT));
  }

  /** Wrapping at every step is wrapping once at the end; the chain is the remainder of 101. */
  lemma {:induction false} HashIsBase33(text: string)
    ensures Hash(text) == Base33(text) % 18446744073709551616
    ensures BucketOf(text) == Base33(text) % 18446744073709551616 % 101
  {
    if text != "" {
      HashIsBase33(text[..|text| - 1]);
      WrapOnce(Base33(text[..|text| - 1]), text[|text| - 1] as nat);
    }
  }

  method HashString(text: string) returns (hash: nat)
    ensures hash == Hash(text)
  {
    hash := 5381;
    var i := 0;
    while i < |text|
      invariant 0 <= i <= |text| && hash == Hash(text[..i])
    {
      assert text[..i + 1][..i] == text[..i];
      ShiftAndAdd(hash, text[i] as nat);
      hash := (32 * hash % ULONG_LIMIT + hash + text[i] as nat) % ULONG_LIMIT;
      i := i + 1;
    }
    assert text[..i] == text;
  }

  // ---- chains as values -------------------------------------------------------------

  datatype Slot = Slot(key: string, offsets: seq<int>)

  function Find(slots: seq<Slot>, key: string): (found: Option<nat>)
    ensures found.Some? ==> found.value < |slots| && slots[found.value].key == key
    ensures forall i :: 0 <= i < (if found.Some? then found.value else |slots|) ==> slots[i].key != key
  {
    if slots == [] then None
    else if slots[0].key == key then Some(0)
    else
      var rest := Find(slots[1..], key);
      if rest.None? then None else Some(rest.value + 1)
  }

  function OffsetsFor(slots: seq<Slot>, key: string): (values: seq<int>) {
    var i := Find(slots, key);
    if i.None? then [] else slots[i.value].offsets
  }

  function AddTo(slots: seq<Slot>, key: string, offset: int): (slots': seq<Slot>)
    ensures slots' != []
  {
    var i := Find(slots, key);
    if i.None? then [Slot(key, [offset])] + slots
    else slots[i.value := Slot(key, slots[i.value].offsets + [offset])]
  }

  lemma FindIs(slots: seq<Slot>, key: string, i: nat)
    requires i < |slots| && slots[i].key == key && forall j :: 0 <= j < i ==> slots[j].key != key
    ensures Find(slots, key) == Some(i)
  {
    var found := Find(slots, key);
    assert found.Some?;
    assert !(found.value < i) && !(i < found.value);
  }

  lemma FindSameKeys(a: seq<Slot>, b: seq<Slot>, key: string)
    requires |a| == |b| && forall i :: 0 <= i < |a| ==> a[i].key == b[i].key
    ensures Find(a, key) == Find(b, key)
  {
    var found := Find(a, key);
    if found.Some? {
      FindIs(b, key, found.value);
    }
  }

  /** Adding one offset changes what is found for its key, and for no other. */
  lemma AddToFinds(slots: seq<Slot>, key: string, offset: int, other: string)
    ensures OffsetsFor(AddTo(slots, key, offset), other)
            == OffsetsFor(slots, other) + (if other == key then [offset] else [])
  {
    var i, slots' := Find(slots, key), AddTo(slots, key, offset);
    if i.None? {
      assert slots'[1..] == slots;
    } else {
      FindSameKeys(slots, slots', other);
      assert OffsetsFor(slots, other) + [] == OffsetsFor(slots, other);
    }
  }

  // ---- the table on values ---------------------------------------------------------------

  type Buckets = t: seq<seq<Slot>> | |t| == HASH_BUCKET_COUNT
    witness seq(HASH_BUCKET_COUNT, _ => [])

  function EmptyBuckets(): (buckets: Buckets) {
    seq(HASH_BUCKET_COUNT, _ => [])
  }

  function Lookup(t: Buckets, key: string): (values: seq<int>) {
    OffsetsFor(t[BucketOf(key)], key)
  }

  function Added(t: Buckets, key: string, offset: int): (buckets: Buckets) {
    t[BucketOf(key) := AddTo(t[BucketOf(key)], key, offset)]
  }

  datatype RangeEntry = RangeEntry(key: string, offset: int)

  /** The table after the entries have been added in order. */
  function Built(entries: seq<RangeEntry>): (buckets: Buckets) {
    if entries == [] then EmptyBuckets()
    else
      var last := entries[|entries| - 1];
      Added(Built(entries[..|entries| - 1]), last.key, last.offset)
  }

  /** A linear scan for equal texts, in row order. */
  function EqualOffsets(entries: seq<RangeEntry>, value: string): (values: seq<int>) {
    if entries == [] then []
    else
      var last := entries[|entries| - 1];
      EqualOffsets(entries[..|entries| - 1], value) + (if value == last.key then [last.offset] else [])
  }

  /** The hash table finds exactly the rows of a linear scan, in row order, however the
      keys collide. */
  lemma {:induction false} LookupIsScan(entries: seq<RangeEntry>, value: string)
    ensures Lookup(Built(entries), value) == EqualOffsets(entries, value)
  {
    hide BucketOf, AddTo, OffsetsFor;
    if entries == [] {
      assert OffsetsFor([], value) == [] by { EmptyFinds(value); }
    } else {
      var n := |entries| - 1;
      LookupIsScan(entries[..n], value);
      AddToFinds(Built(entries[..n])[BucketOf(entries[n].key)], entries[n].key, entries[n].offset, value);
      assert EqualOffsets(entries[..n], value) + [] == EqualOffsets(entries[..n], value);
    }
  }

  lemma EmptyFinds(value: string)
    ensures OffsetsFor([], value) == []
  {
  }

  // ---- the table on the heap ------------------------------------------------------------------

  /** A node stays in the bucket and at the distance from the chain's end it is born
      with, because chains only grow at the front. */
  class HashNode {
    const key: string
    var offsets: seq<int>
    const next: HashNode?
    ghost const bucket: nat
    ghost const depth: nat

    constructor (key: string, offset: int, next: HashNode?, ghost bucket: nat, ghost depth: nat)
      ensures this.key == key && offsets == [offset] && this.next == next
      ensures this.bucket == bucket && this.depth == depth
    {
      this.key, offsets, this.next, this.bucket, this.depth := key, [offset], next, bucket, depth;
    }
  }

  function HeadOf(chain: seq<HashNode>): (node: HashNode?) {
    if chain == [] then null else chain[0]
  }

  /** Node `i` of the chain, its links and what it holds. */
  ghost predicate NodeOk(chain: seq<HashNode>, slots: seq<Slot>, b: nat, i: nat)
    requires i < |chain| == |slots|
    reads chain[i]
  {
    && chain[i].next == HeadOf(chain[i + 1..])
    && Slot(chain[i].key, chain[i].offsets) == slots[i]
    && chain[i].bucket == b && chain[i].depth == |chain| - 1 - i
  }

  ghost predicate ChainOk(chain: seq<HashNode>, slots: seq<Slot>, b: nat)
    reads chain
  {
    |chain| == |slots| && forall i :: 0 <= i < |chain| ==> NodeOk(chain, slots, b, i)
  }

  class EqualityIndex {
    const buckets: array<HashNode?>
    ghost var chains: seq<seq<HashNode>>
    ghost var contents: Buckets
    ghost var nodes: set<HashNode>

    ghost predicate BucketOk(b: nat)
      requires b < HASH_BUCKET_COUNT == |chains|
      reads this, nodes
    {
      (forall i :: 0 <= i < |chains[b]| ==> chains[b][i] in nodes) && ChainOk(chains[b], contents[b], b)
    }

    /** Every bucket heads a chain that holds its slots. */
    ghost predicate Valid()
      reads this, buckets, nodes
    {
      && buckets.Length == HASH_BUCKET_COUNT == |chains|
      && (forall b :: 0 <= b < HASH_BUCKET_COUNT ==> buckets[b] == HeadOf(chains[b]))
      && forall b :: 0 <= b < HASH_BUCKET_COUNT ==> BucketOk(b)
    }

    constructor ()
      ensures Valid() && contents == EmptyBuckets() && fresh(buckets) && nodes == {}
    {
      buckets := new HashNode?[HASH_BUCKET_COUNT](_ => null);
      chains := seq(HASH_BUCKET_COUNT, _ => []);
      contents := EmptyBuckets();
      nodes := {};
    }

    /** The walk along a chain that insertion and query share. */
    method Seek(key: string, b: nat) returns (node: HashNode?, ghost i: nat)
      requires Valid() && b < HASH_BUCKET_COUNT
      ensures i <= |chains[b]| && node == HeadOf(chains[b][i..])
      ensures Find(contents[b], key) == if node == null then None else Some(i)
    {
      node, i := buckets[b], 0;
      assert chains[b][0..] == chains[b];
      assert BucketOk(b);
      while node != null && node.key != key
        invariant i <= |chains[b]| && node == HeadOf(chains[b][i..])
        invariant forall j :: 0 <= j < i ==> contents[b][j].key != key
        decreases |chains[b]| - i
      {
        assert NodeOk(chains[b], contents[b], b, i);
        node := node.next;
        i := i + 1;
      }
      if node != null {
        assert NodeOk(chains[b], contents[b], b, i);
        FindIs(contents[b], key, i);
      }
    }

    /** A key that is there already: its node gets one more offset. */
    method AppendOffset(node: HashNode, offset: int, ghost b: nat, ghost i: nat)
      requires Valid() && b < HASH_BUCKET_COUNT && i < |chains[b]| == |contents[b]| && node == chains[b][i]
        && node in nodes
      modifies this, node
      ensures Valid() && nodes == old(nodes)
      ensures contents == old(contents)[b := old(contents)[b][i := Slot(node.key, old(node.offsets) + [offset])]]
    {
      ghost var slots := contents[b][i := Slot(node.key, node.offsets + [offset])];
      assert BucketOk(b) && NodeOk(chains[b], contents[b], b, i);
      forall c, j | 0 <= c < HASH_BUCKET_COUNT && 0 <= j < |chains[c]|
        ensures chains[c][j] == node ==> c == b && j == i
      {
        assert BucketOk(c);
        assert NodeOk(chains[c], contents[c], c, j);
      }
      node.offsets := node.offsets + [offset];
      contents := contents[b := slots];
      forall c | 0 <= c < HASH_BUCKET_COUNT ensures BucketOk(c) {
        assert old(BucketOk(c)) && |chains[c]| == |contents[c]|;
        forall j | 0 <= j < |chains[c]| ensures chains[c][j] in nodes && NodeOk(chains[c], contents[c], c, j) {
          assert old(NodeOk(chains[c], contents[c], c, j));
        }
      }
    }

    /** A new key: its node goes to the front of the chain. */
    method PushNode(key: string, offset: int, b: nat)
      requires Valid() && b < HASH_BUCKET_COUNT
      modifies this, buckets
      ensures Valid() && fresh(nodes - old(nodes))
      ensures contents == old(contents)[b := [Slot(key, [offset])] + old(contents)[b]]
    {
      assert BucketOk(b);
      ghost var chain, slots := chains[b], contents[b];
      var node := new HashNode(key, offset, buckets[b], b, |chain|);
      forall i | 0 < i < |chain| + 1
        ensures NodeOk([node] + chain, [Slot(key, [offset])] + slots, b, i)
      {
        assert NodeOk(chain, slots, b, i - 1);
        assert ([node] + chain)[i + 1..] == chain[i - 1 + 1..];
      }
      assert ([node] + chain)[1..] == chain;
      buckets[b] := node;
      chains := chains[b := [node] + chain];
      contents := contents[b := [Slot(key, [offset])] + slots];
      nodes := nodes + {node};
      forall c | 0 <= c < HASH_BUCKET_COUNT ensures BucketOk(c) {
        assert c != b ==> old(BucketOk(c));
      }
    }

    /** `index_add_hash_entry`. */
    method Add(key: string, offset: int)
      requires Valid()
      modifies this, buckets, nodes
      ensures Valid() && fresh(nodes - old(nodes)) && contents == Added(old(contents), key, offset)
    {
      var hash := HashString(key);
      var b := hash % HASH_BUCKET_COUNT;
      var node, i := Seek(key, b);
      if node != null {
        assert BucketOk(b) && NodeOk(chains[b], contents[b], b, i);
        AppendOffset(node, offset, b, i);
      } else {
        PushNode(key, offset, b);
      }
    }

    /** `index_query_equals`. */
    method Query(value: string) returns (offsets: seq<int>)
      requires Valid()
      ensures offsets == Lookup(contents, value)
    {
      var hash := HashString(value);
      var b := hash % HASH_BUCKET_COUNT;
      var node, i := Seek(value, b);
      if node == null {
        return [];
      }
      assert BucketOk(b) && NodeOk(chains[b], contents[b], b, i);
      return node.offsets;
    }
  }
}
