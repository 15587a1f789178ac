/** The leaf level: edits of one leaf, the `next` chain, and the finite map the
    leaves spell out. */
module BPTreeLeaves {
  import opened BPTreeNode
  import opened BPTreeShape

  // ---- editing one leaf keeps the shape ------------------------------------

  ghost function AfterLeafInsert(g: Graph, leaf: Node, key: int, row: int): (g': Graph)
    requires leaf in g && |g[leaf].rows| == |g[leaf].keys|
  {
    var at := CountBelow(g[leaf].keys, key);
    g[leaf := g[leaf].(keys := InsertAt(g[leaf].keys, at, key), rows := InsertAt(g[leaf].rows, at, row))]
  }

  ghost predicate LeafReady(g: Graph, root: Node, leaf: Node, key: int) {
    && Shape(g, root, Nothing, null)
    && leaf in g && g[leaf].leaf && g[leaf].lo <= key < g[leaf].hi && key !in g[leaf].keys
  }

  lemma LeafInsertLocal(s: NodeState, key: int, row: int)
    requires LocalOk(s) && s.leaf && s.lo <= key < s.hi && key !in s.keys
    ensures var at := CountBelow(s.keys, key);
            at <= |s.rows| && LocalOk(s.(keys := InsertAt(s.keys, at, key), rows := InsertAt(s.rows, at, row)))
  {
    InsertSorted(s.keys, CountBelow(s.keys, key), key);
  }

  /** Same cells or, for leaves, at least the same span: enough for the parents. */
  lemma LeafEditKids(g: Graph, g': Graph, root: Node, leaf: Node, n: Node, pending: Pending)
    requires Shape(g, root, Nothing, null) && leaf in g && g[leaf].leaf && n in g && n != leaf
    requires forall m :: m in g && m != leaf ==> m in g' && g'[m] == g[m]
    requires SameSpan(g, g', leaf, Nothing, pending) && g'[leaf].parent == g[leaf].parent
    requires pending.Split? ==> pending.left == leaf
    ensures KidsOk(g', n, pending)
  {
    assert KidsOk(g, n, Nothing);
    KidsFrame(g, g', n, Nothing, pending);
  }

  lemma LeafEditParents(g: Graph, g': Graph, root: Node, leaf: Node, n: Node, pending: Pending)
    requires Shape(g, root, Nothing, null) && leaf in g && g[leaf].leaf && n in g
    requires forall m :: m in g && m != leaf ==> m in g' && g'[m] == g[m]
    requires leaf in g' && g'[leaf].parent == g[leaf].parent
    ensures ParentOk(g', root, n, pending)
  {
    assert ParentOk(g, root, n, Nothing);
  }

  lemma LeafInsertLocals(g: Graph, root: Node, leaf: Node, key: int, row: int)
    requires RootOk(g, root, Nothing) && LocalsOk(g, root, null)
    requires leaf in g && g[leaf].leaf && g[leaf].lo <= key < g[leaf].hi && key !in g[leaf].keys
    ensures |g[leaf].rows| == |g[leaf].keys|
    ensures RootOk(AfterLeafInsert(g, leaf, key, row), root, Nothing)
    ensures LocalsOk(AfterLeafInsert(g, leaf, key, row), root, leaf)
    ensures |g[leaf].keys| < MAX_KEYS ==> LocalsOk(AfterLeafInsert(g, leaf, key, row), root, null)
  {
    hide LocalOk, AfterLeafInsert, Occupied;
    LeafInsertSelf(g, leaf, key, row);
    LeafInsertSpan(g, leaf, key, row);
  }

  lemma LeafInsertSelf(g: Graph, leaf: Node, key: int, row: int)
    requires leaf in g && LocalOk(g[leaf])
    requires g[leaf].leaf && g[leaf].lo <= key < g[leaf].hi && key !in g[leaf].keys
    ensures |g[leaf].rows| == |g[leaf].keys|
    ensures LocalOk(AfterLeafInsert(g, leaf, key, row)[leaf])
    ensures |AfterLeafInsert(g, leaf, key, row)[leaf].keys| == |g[leaf].keys| + 1
    ensures Occupied(g[leaf]) ==> Occupied(AfterLeafInsert(g, leaf, key, row)[leaf])
  {
    LeafInsertLocal(g[leaf], key, row);
  }

  lemma LeafInsertSpan(g: Graph, leaf: Node, key: int, row: int)
    requires leaf in g && |g[leaf].rows| == |g[leaf].keys|
    ensures var g' := AfterLeafInsert(g, leaf, key, row);
            && g'.Keys == g.Keys && (forall m :: m in g && m != leaf ==> m in g' && g'[m] == g[m])
            && SameSpan(g, g', leaf, Nothing, Nothing)
            && g'[leaf].parent == g[leaf].parent && g'[leaf].leaf == g[leaf].leaf
  {
  }

  lemma LeafHasNoKids(g: Graph, n: Node)
    requires n in g && LocalOk(g[n]) && g[n].leaf
    ensures KidsOk(g, n, Nothing)
  {
  }

  lemma LeafInsertKeepsShape(g: Graph, root: Node, leaf: Node, key: int, row: int)
    requires LeafReady(g, root, leaf, key)
    ensures |g[leaf].rows| == |g[leaf].keys|
    ensures Shape(AfterLeafInsert(g, leaf, key, row), root, Nothing, leaf)
    ensures |g[leaf].keys| < MAX_KEYS ==> Shape(AfterLeafInsert(g, leaf, key, row), root, Nothing, null)
  {
    LeafInsertLocals(g, root, leaf, key, row);
    var g' := AfterLeafInsert(g, leaf, key, row);
    LeafInsertSpan(g, leaf, key, row);
    hide AfterLeafInsert, LocalOk, Occupied, RootOk, KidsOk, ParentOk, SameSpan;
    forall n | n in g'
      ensures KidsOk(g', n, Nothing) && ParentOk(g', root, n, Nothing)
    {
      if n != leaf {
        LeafEditKids(g, g', root, leaf, n, Nothing);
      } else {
        LeafHasNoKids(g', n);
      }
      LeafEditParents(g, g', root, leaf, n, Nothing);
    }
  }

  // ---- splitting an overfull leaf --------------------------------------------

  ghost function LeftLeaf(s: NodeState, q: Node): (state: NodeState)
    requires s.leaf && |s.keys| == |s.rows| == MAX_KEYS + 1
  {
    s.(keys := s.keys[..16], rows := s.rows[..16], hi := s.keys[16], next := q)
  }

  ghost function RightLeaf(s: NodeState): (state: NodeState)
    requires s.leaf && |s.keys| == |s.rows| == MAX_KEYS + 1
  {
    s.(keys := s.keys[16..], rows := s.rows[16..], lo := s.keys[16])
  }

  ghost function AfterLeafSplit(g: Graph, leaf: Node, q: Node): (g': Graph)
    requires leaf in g && g[leaf].leaf && |g[leaf].keys| == |g[leaf].rows| == MAX_KEYS + 1
  {
    g[leaf := LeftLeaf(g[leaf], q)][q := RightLeaf(g[leaf])]
  }

  lemma LeafHalves(s: NodeState, q: Node)
    requires LocalOk(s) && s.leaf && |s.keys| == MAX_KEYS + 1
    ensures LocalOk(LeftLeaf(s, q)) && LocalOk(RightLeaf(s))
  {
  }

  lemma LeafSplitLocals(g: Graph, root: Node, leaf: Node, q: Node)
    requires Shape(g, root, Nothing, leaf) && leaf in g && q !in g
    requires g[leaf].leaf && |g[leaf].keys| == MAX_KEYS + 1
    ensures |g[leaf].rows| == MAX_KEYS + 1
    ensures LocalsOk(AfterLeafSplit(g, leaf, q), root, null)
    ensures RootOk(AfterLeafSplit(g, leaf, q), root, Split(leaf, q))
  {
    LeafHalves(g[leaf], q);
  }

  /** With its new sibling counted in, the split leaf spans what it spanned. */
  lemma LeafSplitSpans(g: Graph, leaf: Node, q: Node, c: Node)
    requires leaf in g && q !in g && c in g
    requires g[leaf].leaf && |g[leaf].keys| == |g[leaf].rows| == MAX_KEYS + 1
    ensures var g' := AfterLeafSplit(g, leaf, q);
            && SameSpan(g, g', c, Nothing, Split(leaf, q)) && g'[c].parent == g[c].parent
            && (c != leaf ==> g'[c] == g[c])
            && g'[c].leaf == g[c].leaf && g'[c].kids == g[c].kids
  {
  }

  lemma LeafSplitKids(g: Graph, leaf: Node, q: Node, n: Node)
    requires leaf in g && q !in g && n in g && LocalOk(g[n]) && KidsOk(g, n, Nothing)
    requires g[leaf].leaf && |g[leaf].keys| == |g[leaf].rows| == MAX_KEYS + 1
    requires LocalOk(AfterLeafSplit(g, leaf, q)[n])
    ensures KidsOk(AfterLeafSplit(g, leaf, q), n, Split(leaf, q))
  {
    var g' := AfterLeafSplit(g, leaf, q);
    LeafSplitSpans(g, leaf, q, n);
    hide LocalOk, AfterLeafSplit;
    if n != leaf {
      hide SameSpan;
      forall c | c in g[n].kids && c in g
        ensures SameSpan(g, g', c, Nothing, Split(leaf, q)) && g'[c].parent == g[c].parent
      {
        LeafSplitSpans(g, leaf, q, c);
      }
      hide KidsOk;
      KidsFrame(g, g', n, Nothing, Split(leaf, q));
    }
  }

  lemma LeafSplitParent(g: Graph, root: Node, leaf: Node, q: Node, n: Node)
    requires leaf in g && q !in g && n in g && ParentOk(g, root, n, Nothing)
    requires g[leaf].leaf && |g[leaf].keys| == |g[leaf].rows| == MAX_KEYS + 1
    ensures ParentOk(AfterLeafSplit(g, leaf, q), root, n, Split(leaf, q))
  {
    LeafSplitSpans(g, leaf, q, n);
    var p := g[n].parent;
    if p != null && p in g {
      LeafSplitSpans(g, leaf, q, p);
    }
    hide AfterLeafSplit, SameSpan;
  }

  lemma LeafSplitNode(g: Graph, root: Node, leaf: Node, q: Node, n: Node)
    requires Shape(g, root, Nothing, leaf) && leaf in g && q !in g && n in g
    requires g[leaf].leaf && |g[leaf].keys| == |g[leaf].rows| == MAX_KEYS + 1
    requires LocalsOk(AfterLeafSplit(g, leaf, q), root, null)
    ensures KidsOk(AfterLeafSplit(g, leaf, q), n, Split(leaf, q))
    ensures ParentOk(AfterLeafSplit(g, leaf, q), root, n, Split(leaf, q))
  {
    assert LocalOk(g[n]) && KidsOk(g, n, Nothing) && ParentOk(g, root, n, Nothing);
    hide Shape, LocalsOk, LocalOk, KidsOk, ParentOk;
    LeafSplitKids(g, leaf, q, n);
    LeafSplitParent(g, root, leaf, q, n);
  }

  lemma LeafSplitSibling(g: Graph, root: Node, leaf: Node, q: Node)
    requires root in g && leaf in g && q !in g
    requires g[leaf].leaf && |g[leaf].keys| == |g[leaf].rows| == MAX_KEYS + 1
    requires LocalsOk(AfterLeafSplit(g, leaf, q), root, null)
    ensures var g' := AfterLeafSplit(g, leaf, q);
            && g'.Keys == g.Keys + {q} && PendingOk(g', root, Split(leaf, q))
            && KidsOk(g', q, Split(leaf, q)) && ParentOk(g', root, q, Split(leaf, q))
  {
    hide LocalOk;
  }

  lemma LeafSplitKeepsShape(g: Graph, root: Node, leaf: Node, q: Node)
    requires Shape(g, root, Nothing, leaf) && leaf in g && q !in g
    requires g[leaf].leaf && |g[leaf].keys| == MAX_KEYS + 1
    ensures |g[leaf].rows| == MAX_KEYS + 1
    ensures Shape(AfterLeafSplit(g, leaf, q), root, Split(leaf, q), null)
  {
    hide LocalOk, Occupied, RootOk, KidsOk, ParentOk, PendingOk, AfterLeafSplit;
    LeafSplitLocals(g, root, leaf, q);
    LeafSplitSibling(g, root, leaf, q);
    var g' := AfterLeafSplit(g, leaf, q);
    forall n | n in g'
      ensures KidsOk(g', n, Split(leaf, q)) && ParentOk(g', root, n, Split(leaf, q))
    {
      if n in g {
        LeafSplitNode(g, root, leaf, q, n);
      }
    }
  }

  // ---- the chain of leaves ----------------------------------------------------

  /** `chain` lists every leaf; each points to the next and their ranges tile the
      whole key space from left to right. */
  ghost predicate ChainOk(g: Graph, chain: seq<Node>) {
    && |chain| > 0
    && (forall i :: 0 <= i < |chain| ==> chain[i] in g && g[chain[i]].leaf)
    && (forall n :: n in g && g[n].leaf ==> n in chain)
    && g[chain[0]].lo == KEY_MIN
    && g[chain[|chain| - 1]].hi == KEY_LIMIT && g[chain[|chain| - 1]].next == null
    && (forall i :: 0 <= i < |chain| - 1 ==> Linked(g, chain[i], chain[i + 1]))
  }

  ghost predicate Linked(g: Graph, a: Node, b: Node)
    requires a in g && b in g
  {
    g[a].next == b && g[a].hi == g[b].lo
  }

  /** The leaves of both graphs hold the same cells, ranges and links. */
  ghost predicate SameLeaves(g: Graph, g': Graph) {
    && (forall n :: n in g && g[n].leaf ==> n in g' && g'[n] == g[n].(parent := g'[n].parent))
    && (forall n :: n in g' && g'[n].leaf ==> n in g)
    && (forall n :: n in g && n in g' && g'[n].leaf ==> g[n].leaf)
  }

  lemma SameLeavesKeepChain(g: Graph, g': Graph, chain: seq<Node>)
    requires ChainOk(g, chain) && SameLeaves(g, g')
    ensures ChainOk(g', chain)
  {
    forall i | 0 <= i < |chain| - 1 ensures Linked(g', chain[i], chain[i + 1]) {
      assert Linked(g, chain[i], chain[i + 1]);
    }
  }

  lemma LeafInsertKeepsChain(g: Graph, chain: seq<Node>, leaf: Node, key: int, row: int)
    requires ChainOk(g, chain) && leaf in g && g[leaf].leaf && |g[leaf].rows| == |g[leaf].keys|
    ensures ChainOk(AfterLeafInsert(g, leaf, key, row), chain)
  {
    var g' := AfterLeafInsert(g, leaf, key, row);
    forall i | 0 <= i < |chain| - 1 ensures Linked(g', chain[i], chain[i + 1]) {
      assert Linked(g, chain[i], chain[i + 1]);
    }
  }

  lemma LeafSplitLink(g: Graph, chain: seq<Node>, leaf: Node, q: Node, at: nat, i: nat)
    requires ChainOk(g, chain) && at < |chain| && chain[at] == leaf && q !in g
    requires forall i, j :: 0 <= i < j < |chain| ==> chain[i] != chain[j]
    requires |g[leaf].keys| == |g[leaf].rows| == MAX_KEYS + 1
    requires i < |chain|
    ensures var longer := InsertAt(chain, at + 1, q);
            Linked(AfterLeafSplit(g, leaf, q), longer[i], longer[i + 1])
  {
    if i < at {
      assert Linked(g, chain[i], chain[i + 1]);
    } else if i > at {
      assert Linked(g, chain[i - 1], chain[i]);
    }
  }

  lemma LeafSplitMember(g: Graph, chain: seq<Node>, leaf: Node, q: Node, at: nat, n: Node)
    requires ChainOk(g, chain) && at < |chain| && chain[at] == leaf && q !in g
    requires n == q || (n in g && g[n].leaf)
    ensures n in InsertAt(chain, at + 1, q)
  {
    var longer := InsertAt(chain, at + 1, q);
    if n == q {
      assert longer[at + 1] == q;
    } else {
      var i :| 0 <= i < |chain| && chain[i] == n;
      assert longer[if i <= at then i else i + 1] == n;
    }
  }

  lemma LeafSplitEnds(g: Graph, chain: seq<Node>, leaf: Node, q: Node, at: nat)
    requires ChainOk(g, chain) && at < |chain| && chain[at] == leaf && q !in g
    requires forall i, j :: 0 <= i < j < |chain| ==> chain[i] != chain[j]
    requires |g[leaf].keys| == |g[leaf].rows| == MAX_KEYS + 1
    ensures var g' := AfterLeafSplit(g, leaf, q);
            var longer := InsertAt(chain, at + 1, q);
            && (forall i :: 0 <= i < |longer| ==> longer[i] in g' && g'[longer[i]].leaf)
            && g'[longer[0]].lo == KEY_MIN
            && g'[longer[|chain|]].hi == KEY_LIMIT && g'[longer[|chain|]].next == null
  {
    var longer := InsertAt(chain, at + 1, q);
    assert longer[0] == chain[0];
    assert longer[|chain|] == if at == |chain| - 1 then q else chain[|chain| - 1];
  }

  lemma LeafSplitKeepsChain(g: Graph, chain: seq<Node>, leaf: Node, q: Node, at: nat)
    requires ChainOk(g, chain) && at < |chain| && chain[at] == leaf && q !in g
    requires forall i, j :: 0 <= i < j < |chain| ==> chain[i] != chain[j]
    requires |g[leaf].keys| == |g[leaf].rows| == MAX_KEYS + 1
    ensures ChainOk(AfterLeafSplit(g, leaf, q), InsertAt(chain, at + 1, q))
  {
    var g' := AfterLeafSplit(g, leaf, q);
    var longer := InsertAt(chain, at + 1, q);
    forall n | n in g' && g'[n].leaf ensures n in longer {
      LeafSplitMember(g, chain, leaf, q, at, n);
    }
    LeafSplitEnds(g, chain, leaf, q, at);
    forall i | 0 <= i < |longer| - 1 ensures Linked(g', longer[i], longer[i + 1]) {
      LeafSplitLink(g, chain, leaf, q, at, i);
    }
    hide Linked, InsertAt, AfterLeafSplit;
  }

  /** Ranges increase along the chain, so no leaf appears twice. */
  lemma {:induction false} ChainIncreases(g: Graph, root: Node, pending: Pending, over: Node?, chain: seq<Node>,
                                          i: nat, j: nat)
    requires ChainOk(g, chain) && LocalsOk(g, root, over) && i < j < |chain|
    ensures g[chain[i]].hi <= g[chain[j]].lo && g[chain[i]].lo < g[chain[j]].lo && chain[i] != chain[j]
  {
    assert Linked(g, chain[j - 1], chain[j]);
    assert LocalOk(g[chain[j - 1]]);
    assert g[chain[j - 1]].keys[0] < g[chain[j - 1]].hi;
    if i < j - 1 {
      ChainIncreases(g, root, pending, over, chain, i, j - 1);
    }
  }

  // ---- the finite map ----------------------------------------------------------

  ghost predicate Holds(g: Graph, n: Node, key: int)
  {
    n in g && g[n].leaf && key in g[n].keys
  }

  /** Every cell of every leaf is in the map, and every entry of the map is in a leaf. */
  ghost predicate ContentsOk(g: Graph, contents: map<int, int>) {
    && (forall n, i :: n in g && g[n].leaf && 0 <= i < |g[n].keys| == |g[n].rows| ==>
          g[n].keys[i] in contents && contents[g[n].keys[i]] == g[n].rows[i])
    && (forall k :: k in contents ==> exists n :: n in g && Holds(g, n, k))
  }

  lemma SameLeavesKeepContents(g: Graph, g': Graph, contents: map<int, int>)
    requires ContentsOk(g, contents) && SameLeaves(g, g')
    ensures ContentsOk(g', contents)
  {
    forall k | k in contents ensures exists n :: n in g' && Holds(g', n, k) {
      var n: Node :| n in g && Holds(g, n, k);
      assert Holds(g', n, k);
    }
  }

  lemma LeafInsertHolds(g: Graph, leaf: Node, key: int, row: int, n: Node, k: int)
    requires leaf in g && g[leaf].leaf && |g[leaf].rows| == |g[leaf].keys|
    requires Holds(g, n, k) || (n == leaf && k == key)
    ensures Holds(AfterLeafInsert(g, leaf, key, row), n, k)
  {
    var at := CountBelow(g[leaf].keys, key);
    var keys' := InsertAt(g[leaf].keys, at, key);
    if k == key && n == leaf {
      assert keys'[at] == k;
    } else if n == leaf {
      var i :| 0 <= i < |g[leaf].keys| && g[leaf].keys[i] == k;
      assert keys'[if i < at then i else i + 1] == k;
    }
  }

  lemma LeafInsertContents(g: Graph, contents: map<int, int>, leaf: Node, key: int, row: int)
    requires ContentsOk(g, contents) && key !in contents
    requires leaf in g && g[leaf].leaf && |g[leaf].rows| == |g[leaf].keys|
    ensures ContentsOk(AfterLeafInsert(g, leaf, key, row), contents[key := row])
  {
    var g' := AfterLeafInsert(g, leaf, key, row);
    var contents' := contents[key := row];
    hide Holds;
    forall k | k in contents' ensures exists n :: n in g' && Holds(g', n, k) {
      if k == key {
        LeafInsertHolds(g, leaf, key, row, leaf, k);
      } else {
        var n: Node :| n in g && Holds(g, n, k);
        LeafInsertHolds(g, leaf, key, row, n, k);
      }
    }
  }

  lemma LeafSplitContents(g: Graph, contents: map<int, int>, leaf: Node, q: Node)
    requires ContentsOk(g, contents) && q !in g
    requires leaf in g && g[leaf].leaf && |g[leaf].keys| == |g[leaf].rows| == MAX_KEYS + 1
    ensures ContentsOk(AfterLeafSplit(g, leaf, q), contents)
  {
    var g' := AfterLeafSplit(g, leaf, q);
    forall k | k in contents ensures exists n :: n in g' && Holds(g', n, k) {
      var n: Node :| n in g && Holds(g, n, k);
      if n == leaf {
        var i :| 0 <= i < |g[n].keys| && g[n].keys[i] == k;
        if i < 16 {
          assert g'[leaf].keys[i] == k;
          assert Holds(g', leaf, k);
        } else {
          assert g'[q].keys[i - 16] == k;
          assert Holds(g', q, k);
        }
      } else {
        assert Holds(g', n, k);
      }
    }
  }

  // ---- the search path -----------------------------------------------------------

  /** The child the search loop steps into: the number of separators `<= key`. */
  ghost function CountUpTo(keys: seq<int>, key: int): (n: nat)
    ensures n <= |keys|
    ensures forall i :: 0 <= i < n ==> keys[i] <= key
    ensures n < |keys| ==> key < keys[n]
  {
    if keys == [] || key < keys[0] then 0 else 1 + CountUpTo(keys[1..], key)
  }

  /** The node at height `h` on the search path for `key` below `n`. */
  ghost function Descend(g: Graph, root: Node, n: Node, key: int, h: nat): (m: Node)
    requires Shape(g, root, Nothing, null) && n in g && h <= g[n].height
    ensures m in g && g[m].height == h
    decreases g[n].height
  {
    if h == g[n].height then n
    else
      assert LocalOk(g[n]) && KidsOk(g, n, Nothing);
      var i := CountUpTo(g[n].keys, key);
      assert KidOk(g, n, i, Nothing);
      Descend(g, root, g[n].kids[i], key, h)
  }

  /** The child whose range holds `key` is the one the search picks. */
  lemma RangePicksChild(g: Graph, root: Node, n: Node, key: int, i: nat)
    requires Shape(g, root, Nothing, null) && n in g && !g[n].leaf && i < |g[n].kids|
    requires g[n].kids[i] in g && g[g[n].kids[i]].lo <= key < g[g[n].kids[i]].hi
    ensures i == CountUpTo(g[n].keys, key)
  {
    assert LocalOk(g[n]) && KidsOk(g, n, Nothing);
    assert KidOk(g, n, i, Nothing);
  }

  /** Descending in two legs is descending once. */
  lemma {:induction false} DescendOne(g: Graph, root: Node, n: Node, key: int, h: nat)
    requires Shape(g, root, Nothing, null) && n in g && h < g[n].height
    ensures var m := Descend(g, root, n, key, h + 1);
            var i := CountUpTo(g[m].keys, key);
            i < |g[m].kids| && Descend(g, root, n, key, h) == g[m].kids[i]
    decreases g[n].height
  {
    assert LocalOk(g[n]) && KidsOk(g, n, Nothing);
    var i := CountUpTo(g[n].keys, key);
    assert KidOk(g, n, i, Nothing);
    if h + 1 < g[n].height {
      DescendOne(g, root, g[n].kids[i], key, h);
    }
  }

  /** At each height exactly one node is responsible for `key`: the one on the
      search path from the root. */
  lemma {:induction false} RangeIsOnPath(g: Graph, root: Node, n: Node, key: int)
    requires Shape(g, root, Nothing, null) && n in g && g[n].lo <= key < g[n].hi
    ensures g[n].height <= g[root].height && n == Descend(g, root, root, key, g[n].height)
    ensures KEY_MIN <= key < KEY_LIMIT
    decreases g[root].height - g[n].height
  {
    if n != root {
      assert ParentOk(g, root, n, Nothing);
      var p := g[n].parent;
      var i :| 0 <= i < |g[p].kids| && g[p].kids[i] == n;
      assert LocalOk(g[p]) && KidsOk(g, p, Nothing);
      assert KidOk(g, p, i, Nothing);
      RangeIsOnPath(g, root, p, key);
      RangePicksChild(g, root, p, key, i);
      DescendOne(g, root, root, key, g[n].height);
    }
  }

  /** The search path stays inside the ranges it passes. */
  lemma {:induction false} PathInRange(g: Graph, root: Node, n: Node, key: int, h: nat)
    requires Shape(g, root, Nothing, null) && n in g && h <= g[n].height && g[n].lo <= key < g[n].hi
    ensures var m := Descend(g, root, n, key, h); g[m].lo <= key < g[m].hi
    decreases g[n].height
  {
    if h < g[n].height {
      assert LocalOk(g[n]) && KidsOk(g, n, Nothing);
      var i := CountUpTo(g[n].keys, key);
      assert KidOk(g, n, i, Nothing);
      PathInRange(g, root, g[n].kids[i], key, h);
    }
  }

  /** The leaf the search ends in holds the key if any leaf does. */
  lemma SearchIsComplete(g: Graph, root: Node, contents: map<int, int>, key: int)
    requires Shape(g, root, Nothing, null) && ContentsOk(g, contents) && KEY_MIN <= key < KEY_LIMIT
    ensures var leaf := Descend(g, root, root, key, 0);
            && g[leaf].leaf && g[leaf].lo <= key < g[leaf].hi
            && (key in contents <==> key in g[leaf].keys)
  {
    var leaf := Descend(g, root, root, key, 0);
    PathInRange(g, root, root, key, 0);
    assert LocalOk(g[leaf]);
    if key in contents {
      var n: Node :| n in g && Holds(g, n, key);
      assert LocalOk(g[n]);
      RangeIsOnPath(g, root, n, key);
    }
  }
}
