/** What the shape invariant means for the whole tree: the `next` chain is the list
    of leaves in tree order, the entries come out in strictly increasing key order
    and are the map, and occupancy bounds the number of levels. */
module BPTreeOrder {
  import opened BPTreeNode
  import opened BPTreeShape
  import opened BPTreeLeaves
  import opened BPTreeIndex

  ghost predicate Tree(g: Graph, root: Node, chain: seq<Node>) {
    Shape(g, root, Nothing, null) && ChainOk(g, chain)
  }

  // ---- the chain as a line of adjoining ranges ---------------------------------------

  /** The leaves of `chain` carry non-empty ranges that follow one another. */
  ghost predicate Tiled(g: Graph, chain: seq<Node>) {
    && |chain| > 0
    && (forall i :: 0 <= i < |chain| ==> Tile(g, chain[i]))
    && (forall i :: 0 <= i < |chain| - 1 ==> Linked(g, chain[i], chain[i + 1]))
    && (forall i, j :: 0 <= i < j < |chain| ==> g[chain[i]].hi <= g[chain[j]].lo)
    && g[chain[0]].lo == KEY_MIN && g[chain[|chain| - 1]].hi == KEY_LIMIT && g[chain[|chain| - 1]].next == null
  }

  ghost predicate Tile(g: Graph, n: Node) {
    && n in g && g[n].leaf && g[n].lo < g[n].hi
    && |g[n].keys| == |g[n].rows|
    && Sorted(g[n].keys)
    && forall i :: 0 <= i < |g[n].keys| ==> g[n].lo <= g[n].keys[i] < g[n].hi
  }

  lemma TreeTile(g: Graph, root: Node, chain: seq<Node>, n: Node)
    requires Tree(g, root, chain) && n in g && g[n].leaf
    ensures Tile(g, n)
  {
    assert LocalOk(g[n]);
    assert g[n].lo <= g[n].keys[0] < g[n].hi;
  }

  lemma TreeIsTiled(g: Graph, root: Node, chain: seq<Node>)
    requires Tree(g, root, chain)
    ensures Tiled(g, chain)
  {
    forall i | 0 <= i < |chain| ensures Tile(g, chain[i]) {
      TreeTile(g, root, chain, chain[i]);
    }
    forall i, j | 0 <= i < j < |chain| ensures g[chain[i]].hi <= g[chain[j]].lo {
      ChainIncreases(g, root, Nothing, null, chain, i, j);
    }
    hide Shape, Tile;
  }

  /** The range of child `i` is what lies between its separators. */
  lemma KidSpan(g: Graph, root: Node, n: Node, i: nat)
    requires Shape(g, root, Nothing, null) && n in g && !g[n].leaf && i < |g[n].kids|
    ensures |g[n].kids| == |g[n].keys| + 1 && g[n].kids[i] in g
    ensures g[g[n].kids[i]].lo == Lower(g[n], i) && g[g[n].kids[i]].hi == Upper(g[n], i)
    ensures g[g[n].kids[i]].height + 1 == g[n].height
  {
    assert LocalOk(g[n]) && KidsOk(g, n, Nothing);
    assert KidOk(g, n, i, Nothing);
  }

  lemma NodeBasics(g: Graph, root: Node, n: Node)
    requires Shape(g, root, Nothing, null) && n in g
    ensures !g[n].leaf ==> |g[n].kids| == |g[n].keys| + 1 >= 2 && g[n].height > 0
    ensures g[n].leaf ==> g[n].height == 0
    ensures |g[n].keys| == |g[n].rows| || !g[n].leaf
    ensures n != root ==> |g[n].keys| >= if g[n].leaf then 16 else 15
    ensures g[n].height == 0 ==> g[n].leaf
  {
    assert LocalOk(g[n]);
  }

  // ---- the chain is the tree order of the leaves -----------------------------------

  /** The leaves below `n`, left to right, by walking the tree. */
  ghost function LeavesBelow(g: Graph, root: Node, n: Node): (nodes: seq<Node>)
    requires Shape(g, root, Nothing, null) && n in g
    decreases g[n].height, 0
  {
    if g[n].leaf then [n]
    else
      NodeBasics(g, root, n);
      LeavesFrom(g, root, n, 0)
  }

  /** The leaves below the children of `n` from child `i` on. */
  ghost function LeavesFrom(g: Graph, root: Node, n: Node, i: nat): (nodes: seq<Node>)
    requires Shape(g, root, Nothing, null) && n in g && !g[n].leaf && i <= |g[n].kids|
    decreases g[n].height - 1, |g[n].kids| - i + 1
  {
    if i == |g[n].kids| then []
    else
      KidSpan(g, root, n, i);
      LeavesBelow(g, root, g[n].kids[i]) + LeavesFrom(g, root, n, i + 1)
  }

  /** `chain[a..b]` covers exactly the key range `lo <= k < hi`. */
  ghost predicate Covers(g: Graph, chain: seq<Node>, a: nat, b: nat, lo: int, hi: int) {
    && a < b <= |chain| && chain[a] in g && chain[b - 1] in g
    && g[chain[a]].lo == lo && g[chain[b - 1]].hi == hi
  }

  /** Two stretches whose ranges meet are next to each other in the chain. */
  lemma StretchesMeet(g: Graph, chain: seq<Node>, a: nat, m: nat, a': nat, b: nat, lo: int, mid: int, hi: int)
    requires Tiled(g, chain)
    requires Covers(g, chain, a, m, lo, mid) && Covers(g, chain, a', b, mid, hi)
    ensures a' == m && Covers(g, chain, a, b, lo, hi) && chain[a..m] + chain[m..b] == chain[a..b]
  {
    assert Tile(g, chain[a']) && Tile(g, chain[m - 1]);
    if m < |chain| {
      assert Tile(g, chain[m]) && Linked(g, chain[m - 1], chain[m]);
    }
  }

  lemma LeavesFromStep(g: Graph, root: Node, n: Node, i: nat)
    requires Shape(g, root, Nothing, null) && n in g && !g[n].leaf && i < |g[n].kids|
    ensures g[n].kids[i] in g
    ensures LeavesFrom(g, root, n, i) == LeavesBelow(g, root, g[n].kids[i]) + LeavesFrom(g, root, n, i + 1)
    ensures i + 1 == |g[n].kids| ==> LeavesFrom(g, root, n, i) == LeavesBelow(g, root, g[n].kids[i])
  {
    hide Shape;
    KidSpan(g, root, n, i);
  }

  lemma {:induction false} LeavesAreStretch(g: Graph, root: Node, chain: seq<Node>, n: Node) returns (a: nat, b: nat)
    requires Tree(g, root, chain) && Tiled(g, chain) && n in g
    ensures Covers(g, chain, a, b, g[n].lo, g[n].hi)
    ensures LeavesBelow(g, root, n) == chain[a..b]
    decreases g[n].height, 0
  {
    hide Shape, LeavesFrom;
    NodeBasics(g, root, n);
    if g[n].leaf {
      a :| 0 <= a < |chain| && chain[a] == n;
      b := a + 1;
    } else {
      a, b := KidLeavesAreStretch(g, root, chain, n, 0);
    }
  }

  lemma {:induction false} KidLeavesAreStretch(g: Graph, root: Node, chain: seq<Node>, n: Node, i: nat)
    returns (a: nat, b: nat)
    requires Tree(g, root, chain) && Tiled(g, chain) && n in g && !g[n].leaf && i < |g[n].kids| == |g[n].keys| + 1
    ensures Covers(g, chain, a, b, Lower(g[n], i), g[n].hi)
    ensures LeavesFrom(g, root, n, i) == chain[a..b]
    decreases g[n].height - 1, |g[n].kids| - i + 1
  {
    hide Shape, ChainOk, Tiled, Covers, LeavesFrom, LeavesBelow;
    KidSpan(g, root, n, i);
    LeavesFromStep(g, root, n, i);
    var m: nat;
    a, m := LeavesAreStretch(g, root, chain, g[n].kids[i]);
    if i + 1 == |g[n].kids| {
      b := m;
    } else {
      var a': nat;
      a', b := KidLeavesAreStretch(g, root, chain, n, i + 1);
      StretchesMeet(g, chain, a, m, a', b, Lower(g[n], i), Upper(g[n], i), g[n].hi);
    }
  }

  /** The whole key range is covered only by the whole chain. */
  lemma FullRangeIsWholeChain(g: Graph, chain: seq<Node>, a: nat, b: nat)
    requires Tiled(g, chain) && Covers(g, chain, a, b, KEY_MIN, KEY_LIMIT)
    ensures a == 0 && b == |chain|
  {
    assert Tile(g, chain[0]) && Tile(g, chain[|chain| - 1]);
  }

  /** The chain is the left-to-right list of all leaves of the tree. */
  lemma ChainIsTreeOrder(g: Graph, root: Node, chain: seq<Node>)
    requires Tree(g, root, chain)
    ensures LeavesBelow(g, root, root) == chain
  {
    TreeIsTiled(g, root, chain);
    var a, b := LeavesAreStretch(g, root, chain, root);
    FullRangeIsWholeChain(g, chain, a, b);
  }

  /** The node `k` links further along. */
  ghost function Follow(g: Graph, n: Node?, k: nat): (node: Node?) {
    if k == 0 || n == null || n !in g then n else Follow(g, g[n].next, k - 1)
  }

  lemma {:induction false} FollowChain(g: Graph, chain: seq<Node>, i: nat, k: nat)
    requires Tiled(g, chain) && i < |chain| && i + k <= |chain|
    ensures Follow(g, chain[i], k) == if i + k < |chain| then chain[i + k] else null
    decreases k
  {
    if k > 0 {
      assert Tile(g, chain[i]);
      if i + 1 < |chain| {
        assert Linked(g, chain[i], chain[i + 1]);
        FollowChain(g, chain, i + 1, k - 1);
      }
    }
  }

  /** From the leftmost leaf, following `next` meets the leaves of the tree in tree
      order, each of them exactly once, and then ends. */
  lemma NextVisitsEveryLeafOnce(g: Graph, root: Node, chain: seq<Node>)
    requires Tree(g, root, chain)
    ensures var leaves := LeavesBelow(g, root, root);
            && |leaves| > 0
            && (forall k :: 0 <= k <= |leaves| ==>
                  Follow(g, leaves[0], k) == if k < |leaves| then leaves[k] else null)
            && (forall i, j :: 0 <= i < j < |leaves| ==> leaves[i] != leaves[j])
            && (forall n :: n in leaves <==> n in g && g[n].leaf)
  {
    ChainIsTreeOrder(g, root, chain);
    TreeIsTiled(g, root, chain);
    forall k | 0 <= k <= |chain| ensures Follow(g, chain[0], k) == if k < |chain| then chain[k] else null {
      FollowChain(g, chain, 0, k);
    }
    forall i, j | 0 <= i < j < |chain| ensures chain[i] != chain[j] {
      assert Tile(g, chain[i]);
    }
  }

  // ---- the entries ---------------------------------------------------------------------

  ghost function Pairs(keys: seq<int>, rows: seq<int>): (pairs: seq<(int, int)>)
    requires |keys| == |rows|
  {
    seq(|keys|, i requires 0 <= i < |keys| => (keys[i], rows[i]))
  }

  /** The entries of the given leaves, in order. */
  ghost function Entries(g: Graph, leaves: seq<Node>): (pairs: seq<(int, int)>)
    requires forall n :: n in leaves ==> Tile(g, n)
  {
    if leaves == [] then []
    else
      assert Tile(g, leaves[0]);
      Pairs(g[leaves[0]].keys, g[leaves[0]].rows) + Entries(g, leaves[1..])
  }

  ghost predicate StrictlyIncreasing(entries: seq<(int, int)>) {
    forall i, j :: 0 <= i < j < |entries| ==> entries[i].0 < entries[j].0
  }

  lemma JoinIncreasing(a: seq<(int, int)>, b: seq<(int, int)>, mid: int)
    requires StrictlyIncreasing(a) && StrictlyIncreasing(b)
    requires forall e :: e in a ==> e.0 < mid
    requires forall e :: e in b ==> mid <= e.0
    ensures StrictlyIncreasing(a + b)
  {
    forall i, j | 0 <= i < j < |a + b| ensures (a + b)[i].0 < (a + b)[j].0 {
      if i < |a| <= j {
        assert a[i] in a && b[j - |a|] in b;
      }
    }
  }

  /** The entries from leaf `i` on increase and start no lower than that leaf's range. */
  lemma {:induction false} EntriesIncrease(g: Graph, chain: seq<Node>, i: nat)
    requires Tiled(g, chain) && i <= |chain|
    ensures StrictlyIncreasing(Entries(g, chain[i..]))
    ensures forall e :: e in Entries(g, chain[i..]) ==> i < |chain| && g[chain[i]].lo <= e.0 < KEY_LIMIT
    decreases |chain| - i
  {
    if i < |chain| {
      EntriesIncrease(g, chain, i + 1);
      assert chain[i..][1..] == chain[i + 1..];
      var s := g[chain[i]];
      assert Tile(g, chain[i]) && Tile(g, chain[|chain| - 1]);
      if i + 1 < |chain| {
        assert Linked(g, chain[i], chain[i + 1]);
      }
      JoinIncreasing(Pairs(s.keys, s.rows), Entries(g, chain[i + 1..]), s.hi);
    }
  }

  lemma {:induction false} EntryIsInLeaf(g: Graph, leaves: seq<Node>, k: int, v: int)
    requires forall n :: n in leaves ==> Tile(g, n)
    ensures (k, v) in Entries(g, leaves) <==>
            exists n, i :: n in leaves && 0 <= i < |g[n].keys| && g[n].keys[i] == k && g[n].rows[i] == v
  {
    if leaves != [] {
      assert Tile(g, leaves[0]);
      var s := g[leaves[0]];
      EntryIsInLeaf(g, leaves[1..], k, v);
      var first := Pairs(s.keys, s.rows);
      if (k, v) in first {
        var i :| 0 <= i < |first| && first[i] == (k, v);
        assert leaves[0] in leaves && s.keys[i] == k && s.rows[i] == v;
      }
      forall n, i | n in leaves && 0 <= i < |g[n].keys| && g[n].keys[i] == k && g[n].rows[i] == v
        ensures (k, v) in Entries(g, leaves)
      {
        if n == leaves[0] {
          assert first[i] == (k, v);
        } else {
          assert n in leaves[1..];
        }
      }
    }
  }

  ghost function KeysOf(entries: seq<(int, int)>): (members: set<int>) {
    set e | e in entries :: e.0
  }

  lemma {:induction false} KeysCount(entries: seq<(int, int)>)
    requires StrictlyIncreasing(entries)
    ensures |KeysOf(entries)| == |entries|
  {
    if entries != [] {
      var last := |entries| - 1;
      var front := entries[..last];
      KeysCount(front);
      forall e | e in front ensures e.0 != entries[last].0 {
        var i :| 0 <= i < last && entries[i] == e;
      }
      hide StrictlyIncreasing;
      assert entries == front + [entries[last]];
      assert KeysOf(entries) == KeysOf(front) + {entries[last].0};
    }
  }

  lemma EntryIsInMap(g: Graph, root: Node, chain: seq<Node>, contents: map<int, int>, k: int, v: int)
    requires Tree(g, root, chain) && Tiled(g, chain) && ContentsOk(g, contents)
    ensures (k, v) in Entries(g, chain) <==> k in contents && contents[k] == v
  {
    assert forall n :: n in chain ==> Tile(g, n);
    EntryIsInLeaf(g, chain, k, v);
    hide Shape;
    if k in contents && contents[k] == v {
      var n: Node :| n in g && Holds(g, n, k);
      var i :| 0 <= i < |g[n].keys| && g[n].keys[i] == k;
      assert Tile(g, n);
      assert n in chain && g[n].rows[i] == v;
    }
  }

  /** Read along the chain, the entries are the map, in strictly increasing key order. */
  lemma EntriesAreSortedMap(g: Graph, root: Node, chain: seq<Node>, contents: map<int, int>)
    requires Tree(g, root, chain) && ContentsOk(g, contents)
    ensures forall n :: n in chain ==> Tile(g, n)
    ensures var entries := Entries(g, chain);
            && StrictlyIncreasing(entries)
            && (forall k, v :: (k, v) in entries <==> k in contents && contents[k] == v)
            && |entries| == |contents|
            && (forall e :: e in entries ==> KEY_MIN <= e.0 < KEY_LIMIT)
  {
    TreeIsTiled(g, root, chain);
    EntriesIncrease(g, chain, 0);
    assert chain[0..] == chain;
    var entries := Entries(g, chain);
    forall k, v ensures (k, v) in entries <==> k in contents && contents[k] == v {
      EntryIsInMap(g, root, chain, contents, k, v);
    }
    hide Tree, Tiled, ContentsOk, Entries;
    KeysCount(entries);
    assert contents.Keys == KeysOf(entries) by {
      forall k | k in contents ensures k in KeysOf(entries) {
        assert (k, contents[k]) in entries;
      }
    }
  }

  // ---- occupancy ---------------------------------------------------------------------------

  ghost function Pow16(n: nat): (p: nat)
    ensures p >= 1
  {
    if n == 0 then 1 else 16 * Pow16(n - 1)
  }

  /** A node other than the root, `h` levels above the leaves, has at least 16^h leaves. */
  lemma {:induction false} ManyLeavesBelow(g: Graph, root: Node, n: Node)
    requires Shape(g, root, Nothing, null) && n in g && n != root
    ensures |LeavesBelow(g, root, n)| >= Pow16(g[n].height)
    decreases g[n].height, 0
  {
    NodeBasics(g, root, n);
    if !g[n].leaf {
      hide Shape;
      ManyLeavesFrom(g, root, n, 0);
      CopiesAtLeast(|g[n].kids|, 16, Pow16(g[n].height - 1));
    }
  }

  /** `k` times `p`, as a sum. */
  ghost function Copies(k: nat, p: nat): (n: nat) {
    if k == 0 then 0 else p + Copies(k - 1, p)
  }

  lemma {:induction false} CopiesIsProduct(k: nat, p: nat)
    ensures Copies(k, p) == k * p
  {
    if k > 0 {
      CopiesIsProduct(k - 1, p);
    }
  }

  lemma {:induction false} CopiesAtLeast(a: nat, b: nat, p: nat)
    requires a >= b
    ensures Copies(a, p) >= b * p
  {
    if a > b {
      CopiesAtLeast(a - 1, b, p);
    } else {
      CopiesIsProduct(a, p);
    }
  }

  /** Each child brings at least as many leaves as its height demands. */
  lemma {:induction false} ManyLeavesFrom(g: Graph, root: Node, n: Node, i: nat)
    requires Shape(g, root, Nothing, null) && n in g && !g[n].leaf && g[n].height > 0 && i <= |g[n].kids|
    ensures |LeavesFrom(g, root, n, i)| >= Copies(|g[n].kids| - i, Pow16(g[n].height - 1))
    decreases g[n].height - 1, |g[n].kids| - i + 1
  {
    if i < |g[n].kids| {
      KidSpan(g, root, n, i);
      RootIsNoKid(g, root, n, i);
      hide Shape;
      ManyLeavesBelow(g, root, g[n].kids[i]);
      ManyLeavesFrom(g, root, n, i + 1);
    }
  }

  lemma RootIsNoKid(g: Graph, root: Node, n: Node, i: nat)
    requires Shape(g, root, Nothing, null) && n in g && !g[n].leaf && i < |g[n].kids|
    ensures g[n].kids[i] != root
  {
    assert LocalOk(g[n]) && KidsOk(g, n, Nothing);
    assert KidOk(g, n, i, Nothing);
  }

  lemma {:induction false} ManyEntries(g: Graph, root: Node, leaves: seq<Node>)
    requires Shape(g, root, Nothing, null) && forall n :: n in leaves ==> Tile(g, n) && n != root
    ensures |Entries(g, leaves)| >= 16 * |leaves|
  {
    if leaves != [] {
      assert Tile(g, leaves[0]);
      NodeBasics(g, root, leaves[0]);
      hide Shape;
      ManyEntries(g, root, leaves[1..]);
    }
  }

  lemma ManyLeaves(g: Graph, root: Node, chain: seq<Node>)
    requires Tree(g, root, chain) && g[root].height >= 1
    ensures |chain| >= 2 * Pow16(g[root].height - 1)
    ensures Tiled(g, chain) && forall n :: n in chain ==> n != root
  {
    NodeBasics(g, root, root);
    ChainIsTreeOrder(g, root, chain);
    TreeIsTiled(g, root, chain);
    hide Shape;
    ManyLeavesFrom(g, root, root, 0);
    CopiesAtLeast(|g[root].kids|, 2, Pow16(g[root].height - 1));
    forall n | n in chain ensures n != root {
      assert Tile(g, n);
    }
  }

  /** A tree of two or more levels holds at least 2 * 16^(levels - 1) keys. */
  lemma OccupancyBoundsHeight(g: Graph, root: Node, chain: seq<Node>, contents: map<int, int>)
    requires Tree(g, root, chain) && ContentsOk(g, contents) && g[root].height >= 1
    ensures |contents| >= 2 * Pow16(g[root].height)
  {
    hide ContentsOk, ChainOk, Tiled, Shape, Tile, StrictlyIncreasing;
    ManyLeaves(g, root, chain);
    EntriesAreSortedMap(g, root, chain, contents);
    ManyEntries(g, root, chain);
  }

  lemma {:induction false} IncreasingSpread(entries: seq<(int, int)>, i: nat)
    requires StrictlyIncreasing(entries) && i < |entries|
    ensures entries[0].0 + i <= entries[i].0
  {
    if i > 0 {
      IncreasingSpread(entries, i - 1);
    }
  }

  lemma {:induction false} Pow16Grows(m: nat, n: nat)
    requires m <= n
    ensures Pow16(m) <= Pow16(n)
  {
    if m < n {
      Pow16Grows(m, n - 1);
    }
  }

  /** Increasing 32-bit keys: there are at most 2^32 of them. */
  lemma EntriesFit(entries: seq<(int, int)>)
    requires StrictlyIncreasing(entries)
    requires forall e :: e in entries ==> KEY_MIN <= e.0 < KEY_LIMIT
    ensures |entries| <= KEY_LIMIT - KEY_MIN
  {
    if |entries| > 0 {
      IncreasingSpread(entries, |entries| - 1);
      assert entries[0] in entries && entries[|entries| - 1] in entries;
    }
  }

  lemma Pow16Of8()
    ensures Pow16(8) == 0x1_0000_0000
  {
    assert Pow16(2) == 256;
    assert Pow16(4) == 256 * Pow16(2);
    assert Pow16(6) == 256 * Pow16(4);
  }

  /** However many 32-bit keys are inserted, a search visits at most eight nodes. */
  lemma AtMostEightLevels(t: BPTree)
    requires t.Valid()
    ensures t.Levels() <= 8
  {
    if t.root != null && t.g[t.root].height >= 1 {
      OccupancyBoundsHeight(t.g, t.root, t.chain, t.contents);
      EntriesAreSortedMap(t.g, t.root, t.chain, t.contents);
      EntriesFit(Entries(t.g, t.chain));
      Pow16Of8();
      if t.g[t.root].height >= 8 {
        Pow16Grows(8, t.g[t.root].height);
      }
    }
  }
}
