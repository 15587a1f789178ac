/** The id index: `bptree_insert`, `bptree_search` and the upward propagation of
    splits (src/db/bptree.c), proved against the shape invariant and a finite map. */
module BPTreeIndex {
  import opened BPTreeNode
  import opened BPTreeShape
  import opened BPTreeLeaves
  import opened BPTreeHeap

  // ---- the nodes above a node --------------------------------------------------

  /** The `steps` nodes above `n` exist and are all full. */
  ghost predicate FullAbove(g: Graph, n: Node, steps: nat)
    requires n in g
  {
    steps == 0 ||
    var p := g[n].parent;
    p != null && p in g && |g[p].keys| == MAX_KEYS && FullAbove(g, p, steps - 1)
  }

  /** Above `h`, both graphs have the same nodes, links and key counts. */
  ghost predicate SameAbove(g: Graph, g': Graph, h: nat) {
    forall m :: m in g && g[m].height > h ==> m in g' && g'[m].parent == g[m].parent && |g'[m].keys| == |g[m].keys|
  }

  lemma ParentIsHigher(g: Graph, root: Node, n: Node, pending: Pending, over: Node?)
    requires Shape(g, root, pending, over) && n in g && n != root && !(pending.Split? && n == pending.right)
    ensures var p := g[n].parent; p != null && p in g && g[p].height == g[n].height + 1
  {
    assert ParentOk(g, root, n, pending);
    var p := g[n].parent;
    var i :| 0 <= i < |g[p].kids| && g[p].kids[i] == n;
    assert LocalOk(g[p]) && KidsOk(g, p, pending);
    assert KidOk(g, p, i, pending);
  }

  lemma {:induction false} FullAboveFrame(g: Graph, g': Graph, root: Node, pending: Pending, over: Node?, n: Node,
                                          steps: nat)
    requires Shape(g, root, pending, over) && n in g && n in g' && steps == g[root].height - g[n].height
    requires !(pending.Split? && n == pending.right)
    requires pending.Split? ==> g[pending.right].height < g[n].height + 1
    requires SameAbove(g, g', g[n].height) && g'[n].parent == g[n].parent
    ensures FullAbove(g, n, steps) == FullAbove(g', n, steps)
    decreases steps
  {
    if steps > 0 {
      ParentIsHigher(g, root, n, pending, over);
      FullAboveFrame(g, g', root, pending, over, g[n].parent, steps - 1);
    }
  }

  // ---- propagation ----------------------------------------------------------------

  lemma SameLeavesTransitive(g: Graph, g': Graph, g'': Graph)
    requires SameLeaves(g, g') && SameLeaves(g', g'')
    requires g.Keys <= g'.Keys
    ensures SameLeaves(g, g'')
  {
  }

  lemma NewRootSameLeaves(g: Graph, left: Node, right: Node, top: Node)
    requires left in g && right in g && top !in g
    ensures SameLeaves(g, AfterNewRoot(g, left, right, top))
  {
  }

  lemma LinkSameLeaves(g: Graph, p: Node, i: nat, right: Node)
    requires p in g && right in g && !g[p].leaf && i <= |g[p].keys| && i < |g[p].kids|
    ensures SameLeaves(g, AfterLink(g, p, i, right))
  {
  }

  lemma InnerSplitSameLeaves(g: Graph, p: Node, q: Node)
    requires p in g && !g[p].leaf && |g[p].keys| == MAX_KEYS + 1 && |g[p].kids| == MAX_KEYS + 2 && q !in g
    ensures SameLeaves(g, AfterInnerSplit(g, p, q))
  {
  }

  /** The inner split seen from above: nothing above `p` changed. */
  lemma InnerSplitSameAbove(g: Graph, p: Node, i: nat, right: Node, q: Node)
    requires p in g && right in g && !g[p].leaf && i <= |g[p].keys| == MAX_KEYS && |g[p].kids| == MAX_KEYS + 1
    requires q !in g && KidsPointBack(AfterLink(g, p, i, right), p)
    ensures var g2 := AfterInnerSplit(AfterLink(g, p, i, right), p, q);
            SameAbove(g, g2, g[p].height) && g2[p].parent == g[p].parent && g2[p].height == g[p].height
  {
    var g1 := AfterLink(g, p, i, right);
    assert forall m :: m in g && g[m].height >= g[p].height ==> m !in g1[p].kids;
    hide KidsPointBack;
  }

  /** `bptree_find_child_index`. */
  method FindChildIndex(parent: Node, child: Node) returns (index: int)
    requires parent.WellSized() && parent.keyCount <= MAX_KEYS
    ensures index == -1 || 0 <= index <= parent.keyCount
    ensures index == -1 <==> child !in parent.Kids()
    ensures index != -1 ==> parent.children[index] == child
  {
    var i := 0;
    while i <= parent.keyCount
      invariant 0 <= i <= parent.keyCount + 1
      invariant forall j :: 0 <= j < i ==> parent.children[j] != child
    {
      if parent.children[i] == child {
        return i;
      }
      i := i + 1;
    }
    return -1;
  }

  /** The pending split of `left` has been absorbed: the shape is whole again, the
      leaves are untouched, and the tree grew exactly when every node above the
      split one was full. */
  ghost predicate Absorbed(g: Graph, root: Node, left: Node, g': Graph, newRoot: Node) {
    && left in g && root in g && g[left].height <= g[root].height
    && Shape(g', newRoot, Nothing, null)
    && SameLeaves(g, g') && g.Keys <= g'.Keys
    && g'[newRoot].height == g[root].height
                            + if FullAbove(g, left, g[root].height - g[left].height) then 1 else 0
  }

  /** A split pair waits to be linked under its full parent `p`. */
  ghost predicate SplitStep(g: Graph, root: Node, left: Node, right: Node, p: Node, i: nat) {
    && LinkReady(g, root, left, right, p, i)
    && p in g && left in g && right in g && root in g && p != left && p != right
    && !g[p].leaf && i <= |g[p].keys| == MAX_KEYS && |g[p].kids| == MAX_KEYS + 1
    && g[right].height < g[p].height == g[left].height + 1 <= g[root].height
    && var g1 := AfterLink(g, p, i, right);
    && !g1[p].leaf && |g1[p].keys| == MAX_KEYS + 1 && |g1[p].kids| == MAX_KEYS + 2
    && g1[p].height == g[p].height && g1[root].height == g[root].height
    && root !in g1[p].kids
    && Shape(g1, root, Nothing, p)
    && KidsPointBack(g1, p)
  }

  lemma SplitStepShape(g: Graph, root: Node, left: Node, right: Node, p: Node, i: nat, q: Node)
    requires SplitStep(g, root, left, right, p, i) && q !in g
    ensures var g2 := AfterInnerSplit(AfterLink(g, p, i, right), p, q);
            && Shape(g2, root, Split(p, q), null) && Occupied(g2[p])
            && g2[q].lo == AfterLink(g, p, i, right)[p].keys[16]
  {
    hide RootOk, KidsOk, ParentOk, LocalOk, InsertAt, KidsPointBack;
    InnerSplitKeepsShape(AfterLink(g, p, i, right), root, p, q);
  }

  lemma SplitStepLeaves(g: Graph, p: Node, i: nat, right: Node, q: Node)
    requires p in g && right in g && !g[p].leaf && i <= |g[p].keys| == MAX_KEYS && |g[p].kids| == MAX_KEYS + 1
    requires q !in g
    ensures SameLeaves(g, AfterInnerSplit(AfterLink(g, p, i, right), p, q))
  {
    var g1 := AfterLink(g, p, i, right);
    LinkSameLeaves(g, p, i, right);
    InnerSplitSameLeaves(g1, p, q);
    hide AfterInnerSplit;
    SameLeavesTransitive(g, g1, AfterInnerSplit(g1, p, q));
  }

  lemma SplitStepFull(g: Graph, root: Node, left: Node, right: Node, p: Node, i: nat, g2: Graph)
    requires SplitStep(g, root, left, right, p, i) && p in g2
    requires SameAbove(g, g2, g[p].height) && g2[p].parent == g[p].parent
    ensures FullAbove(g, left, g[root].height - g[left].height)
         == FullAbove(g2, p, g[root].height - g[p].height)
  {
    hide AfterLink, LocalOk, KidsOk, ParentOk, SameAbove;
    FullAboveFrame(g, g2, root, Split(left, right), null, p, g[root].height - g[p].height);
  }

  lemma AbsorbedOneDown(g: Graph, g2: Graph, root: Node, left: Node, p: Node, g': Graph, newRoot: Node)
    requires Absorbed(g2, root, p, g', newRoot)
    requires SameLeaves(g, g2) && g.Keys <= g2.Keys && left in g && root in g && p in g && p in g2 && root in g2
    requires g[left].height <= g[p].height <= g[root].height
    requires g2[root].height == g[root].height && g2[p].height == g[p].height
    requires FullAbove(g, left, g[root].height - g[left].height) == FullAbove(g2, p, g[root].height - g[p].height)
    ensures Absorbed(g, root, left, g', newRoot)
  {
    hide Shape, SameLeaves, FullAbove;
    SameLeavesTransitive(g, g2, g');
  }

  /** Absorbing the split of the parent absorbs the split of the child. */
  lemma SplitStepAbsorbed(g: Graph, root: Node, left: Node, right: Node, p: Node, i: nat, q: Node, g': Graph,
                          newRoot: Node)
    requires SplitStep(g, root, left, right, p, i) && q !in g
    requires Absorbed(AfterInnerSplit(AfterLink(g, p, i, right), p, q), root, p, g', newRoot)
    ensures Absorbed(g, root, left, g', newRoot)
  {
    hide LinkReady, Shape, KidsPointBack, AfterLink, AfterInnerSplit, SameLeaves, SameAbove, FullAbove, Absorbed;
    var g2 := AfterInnerSplit(AfterLink(g, p, i, right), p, q);
    InnerSplitSameAbove(g, p, i, right, q);
    SplitStepLeaves(g, p, i, right, q);
    SplitStepHeights(g, root, left, right, p, i, q);
    SplitStepFull(g, root, left, right, p, i, g2);
    AbsorbedOneDown(g, g2, root, left, p, g', newRoot);
  }

  lemma NewRootAbsorbs(g: Graph, left: Node, right: Node, top: Node)
    requires Shape(g, left, Split(left, right), null) && top !in g && Occupied(g[left])
    ensures Absorbed(g, left, left, AfterNewRoot(g, left, right, top), top)
  {
    NewRootKeepsShape(g, left, right, top);
    NewRootSameLeaves(g, left, right, top);
  }

  /** With room in the parent, nothing is overfull and the height stays. */
  lemma LinkFits(g: Graph, root: Node, pending: Pending, p: Node)
    requires Shape(g, root, pending, p) && p in g && |g[p].keys| <= MAX_KEYS
    ensures Shape(g, root, pending, null)
  {
    hide LocalOk, KidsOk, ParentOk;
  }

  lemma LinkAbsorbs(g: Graph, root: Node, left: Node, right: Node, p: Node, i: nat)
    requires LinkReady(g, root, left, right, p, i) && i <= |g[p].keys| < MAX_KEYS && right in g
    ensures Absorbed(g, root, left, AfterLink(g, p, i, right), root)
  {
    LinkBounds(g, root, left, right, p, i);
    LinkKeepsShape(g, root, left, right, p, i);
    LinkSameLeaves(g, p, i, right);
    hide LocalOk, KidsOk, ParentOk, Shape, SameLeaves;
    LinkFits(AfterLink(g, p, i, right), root, Nothing, p);
  }

  /** `bptree_insert_into_parent`. */
  method InsertIntoParent(root: Node, left: Node, key: int, right: Node, ghost g: Graph, ghost repr: set<object>)
    returns (newRoot: Node, ok: bool, ghost g': Graph, ghost repr': set<object>)
    requires Wired(g, repr) && Shape(g, root, Split(left, right), null)
    requires key == g[right].lo && Occupied(g[left])
    modifies repr
    ensures ok && Absorbed(g, root, left, g', newRoot)
    ensures Wired(g', repr') && repr <= repr' && fresh(repr' - repr)
    decreases g[root].height - g[left].height, 2
  {
    hide Wired, LocalOk, KidsOk, ParentOk, LocalsOk, AfterNewRoot;
    WiredAt(g, repr, left);
    var parent := left.parent;
    if parent == null {
      OrphanIsRoot(g, root, left, right);
      WiredAt(g, repr, right);
      newRoot := GrowRoot(left, key, right, g, repr);
      g', repr' := AfterNewRoot(g, left, right, newRoot), repr + Territory(newRoot);
      NewRootAbsorbs(g, left, right, newRoot);
      return newRoot, true, g', repr';
    }
    PendingParent(g, root, left, right);
    WiredAt(g, repr, parent);
    var childIndex := FindChildIndex(parent, left);
    if childIndex == -1 {
      assert false;
    }
    newRoot, ok, g', repr' := InsertBesideChild(root, left, key, right, parent, childIndex, g, repr);
  }

  /** The two branches of `bptree_insert_into_parent` below an existing parent. */
  method InsertBesideChild(root: Node, left: Node, key: int, right: Node, parent: Node, i: nat, ghost g: Graph,
                           ghost repr: set<object>)
    returns (newRoot: Node, ok: bool, ghost g': Graph, ghost repr': set<object>)
    requires Wired(g, repr) && LinkReady(g, root, left, right, parent, i) && right in g
    requires key == g[right].lo && g[right].parent == parent
    modifies repr
    ensures ok && Absorbed(g, root, left, g', newRoot)
    ensures Wired(g', repr') && repr <= repr' && fresh(repr' - repr)
    decreases g[root].height - g[left].height, 1
  {
    WiredAt(g, repr, parent);
    LinkBounds(g, root, left, right, parent, i);
    assert |g[parent].keys| <= MAX_KEYS;
    var roomy := parent.keyCount < MAX_KEYS;
    assert roomy == (|g[parent].keys| < MAX_KEYS);
    hide Wired, Represents, Cells, Shape;
    if roomy {
      LinkChild(parent, i, key, right, g, repr);
      g', repr' := AfterLink(g, parent, i, right), repr;
      LinkAbsorbs(g, root, left, right, parent, i);
      return root, true, g', repr';
    }
    SplitStepReady(g, root, left, right, parent, i);
    newRoot, ok, g', repr' := SplitInternal(root, left, key, right, parent, i, g, repr);
  }

  lemma SplitStepReady(g: Graph, root: Node, left: Node, right: Node, p: Node, i: nat)
    requires LinkReady(g, root, left, right, p, i) && right in g && |g[p].keys| == MAX_KEYS
    ensures SplitStep(g, root, left, right, p, i)
  {
    LinkBounds(g, root, left, right, p, i);
    LinkKeepsShape(g, root, left, right, p, i);
    OverfullKidsPointBack(AfterLink(g, p, i, right), root, p);
    hide LocalOk, KidsOk, ParentOk;
  }

  /** `bptree_split_internal`. */
  method SplitInternal(root: Node, left: Node, key: int, right: Node, node: Node, i: nat, ghost g: Graph,
                       ghost repr: set<object>)
    returns (newRoot: Node, ok: bool, ghost g': Graph, ghost repr': set<object>)
    requires Wired(g, repr) && SplitStep(g, root, left, right, node, i) && key == g[right].lo
    modifies repr
    ensures ok && Absorbed(g, root, left, g', newRoot)
    ensures Wired(g', repr') && repr <= repr' && fresh(repr' - repr)
    decreases g[root].height - g[left].height, 0
  {
    hide Wired, LinkReady, Shape, KidsPointBack, AfterLink, AfterInnerSplit;
    var newNode, promoteKey := SplitInner(node, i, key, right, g, repr);
    ghost var g2 := AfterInnerSplit(AfterLink(g, node, i, right), node, newNode);
    SplitStepShape(g, root, left, right, node, i, newNode);
    SplitStepHeights(g, root, left, right, node, i, newNode);
    newRoot, ok, g', repr' := InsertIntoParent(root, node, promoteKey, newNode, g2, repr + Territory(newNode));
    SplitStepAbsorbed(g, root, left, right, node, i, newNode, g', newRoot);
  }

  lemma SplitStepHeights(g: Graph, root: Node, left: Node, right: Node, p: Node, i: nat, q: Node)
    requires SplitStep(g, root, left, right, p, i) && q !in g
    ensures var g2 := AfterInnerSplit(AfterLink(g, p, i, right), p, q);
            g2[root].height == g[root].height && g2[p].height == g[p].height
  {
    hide LinkReady, Shape, KidsPointBack, AfterLink;
  }

  // ---- search ------------------------------------------------------------------------

  lemma {:induction false} CountUpToIs(keys: seq<int>, key: int, n: nat)
    requires n <= |keys|
    requires forall i :: 0 <= i < n ==> keys[i] <= key
    requires n < |keys| ==> key < keys[n]
    ensures CountUpTo(keys, key) == n
  {
    if keys != [] && keys[0] <= key {
      CountUpToIs(keys[1..], key, n - 1);
    }
  }

  /** One turn of the loop of `bptree_find_leaf`. */
  method StepDown(current: Node, key: int, ghost s: NodeState) returns (child: Node?)
    requires Represents(current, s) && !s.leaf && |s.kids| == |s.keys| + 1
    ensures child == s.kids[CountUpTo(s.keys, key)]
  {
    var i := 0;
    while i < current.keyCount && !(key < current.keys[i])
      invariant 0 <= i <= current.keyCount
      invariant forall j :: 0 <= j < i ==> s.keys[j] <= key
    {
      assert current.keys[i] == s.keys[i];
      i := i + 1;
    }
    assert i < |s.keys| ==> current.keys[i] == s.keys[i];
    CountUpToIs(s.keys, key, i);
    child := current.children[i];
    assert child == current.children[..current.keyCount + 1][i];
  }

  /** `bptree_find_leaf`. */
  method FindLeaf(root: Node?, key: int, ghost g: Graph, ghost repr: set<object>) returns (leaf: Node?)
    requires root != null ==> Wired(g, repr) && Shape(g, root, Nothing, null)
    ensures root == null ==> leaf == null
    ensures root != null ==> leaf == Descend(g, root, root, key, 0)
  {
    leaf := root;
    if root == null {
      return;
    }
    WiredAt(g, repr, leaf);
    while leaf != null && !leaf.isLeaf
      invariant leaf != null && leaf in g && g[leaf].height <= g[root].height
      invariant leaf == Descend(g, root, root, key, g[leaf].height)
      invariant leaf.isLeaf == g[leaf].leaf
      decreases if leaf in g then g[leaf].height else 0
    {
      WiredAt(g, repr, leaf);
      assert LocalOk(g[leaf]) && KidsOk(g, leaf, Nothing);
      ghost var above := leaf;
      leaf := StepDown(leaf, key, g[leaf]);
      assert KidOk(g, above, CountUpTo(g[above].keys, key), Nothing);
      DescendOne(g, root, root, key, g[leaf].height);
      WiredAt(g, repr, leaf);
    }
    assert LocalOk(g[leaf]);
  }

  /** The scan of one leaf in `bptree_search`. */
  method FindInLeaf(leaf: Node, key: int, ghost s: NodeState) returns (found: bool, rowIndex: int)
    requires Represents(leaf, s) && s.leaf && |s.rows| == |s.keys|
    ensures found <==> key in s.keys
    ensures found ==> exists i :: 0 <= i < |s.keys| && s.keys[i] == key && s.rows[i] == rowIndex
  {
    var i := 0;
    while i < leaf.keyCount
      invariant 0 <= i <= leaf.keyCount
      invariant forall j :: 0 <= j < i ==> s.keys[j] != key
    {
      assert leaf.keys[i] == s.keys[i] && leaf.rowIndices[i] == s.rows[i];
      if leaf.keys[i] == key {
        return true, leaf.rowIndices[i];
      }
      i := i + 1;
    }
    return false, 0;
  }

  // ---- the nodes on the search path ------------------------------------------------------

  /** Every node from height `h` up to the root on the search path for `key` is full. */
  ghost predicate PathFull(g: Graph, root: Node, key: int, h: nat)
    requires Shape(g, root, Nothing, null)
  {
    forall k :: h <= k <= g[root].height ==> |g[Descend(g, root, root, key, k)].keys| == MAX_KEYS
  }

  lemma ParentOnPath(g: Graph, root: Node, key: int, h: nat)
    requires Shape(g, root, Nothing, null) && h < g[root].height
    ensures g[Descend(g, root, root, key, h)].parent == Descend(g, root, root, key, h + 1)
  {
    var p := Descend(g, root, root, key, h + 1);
    DescendOne(g, root, root, key, h);
    assert LocalOk(g[p]) && KidsOk(g, p, Nothing);
    assert KidOk(g, p, CountUpTo(g[p].keys, key), Nothing);
  }

  lemma RootThere(g: Graph, root: Node)
    requires Shape(g, root, Nothing, null)
    ensures root in g
  {
  }

  lemma {:induction false} FullAboveIsPathFull(g: Graph, root: Node, key: int, h: nat)
    requires Shape(g, root, Nothing, null) && h <= g[root].height
    ensures var n := Descend(g, root, root, key, h);
            FullAbove(g, n, g[root].height - h) <==> PathFull(g, root, key, h + 1)
    decreases g[root].height - h
  {
    hide Shape, Descend;
    RootThere(g, root);
    if h < g[root].height {
      ParentOnPath(g, root, key, h);
      FullAboveIsPathFull(g, root, key, h + 1);
    }
  }

  // ---- insertion ---------------------------------------------------------------------------

  /** The leaf `leaf` is the place for `key` in a tree that spells out `contents`. */
  ghost predicate PlaceFor(g: Graph, root: Node, chain: seq<Node>, contents: map<int, int>, leaf: Node, key: int) {
    && Shape(g, root, Nothing, null) && ChainOk(g, chain) && ContentsOk(g, contents)
    && leaf == Descend(g, root, root, key, 0)
    && key !in contents && KEY_MIN <= key < KEY_LIMIT
  }

  lemma PlaceIsReady(g: Graph, root: Node, chain: seq<Node>, contents: map<int, int>, leaf: Node, key: int)
    requires PlaceFor(g, root, chain, contents, leaf, key)
    ensures LeafReady(g, root, leaf, key) && |g[leaf].rows| == |g[leaf].keys| <= MAX_KEYS
  {
    SearchIsComplete(g, root, contents, key);
    assert LocalOk(g[leaf]);
  }

  /** What an insertion that reached `leaf` leaves behind. */
  ghost predicate TreeWith(g: Graph, root: Node, contents: map<int, int>, key: int, row: int,
                           g': Graph, root': Node, chain': seq<Node>)
    requires Shape(g, root, Nothing, null)
  {
    && Shape(g', root', Nothing, null) && ChainOk(g', chain') && ContentsOk(g', contents[key := row])
    && g'[root'].height == g[root].height + if PathFull(g, root, key, 0) then 1 else 0
  }

  lemma RoomyLeafInserted(g: Graph, root: Node, chain: seq<Node>, contents: map<int, int>, leaf: Node, key: int,
                          row: int)
    requires PlaceFor(g, root, chain, contents, leaf, key)
    requires |g[leaf].rows| == |g[leaf].keys| < MAX_KEYS
    ensures TreeWith(g, root, contents, key, row, AfterLeafInsert(g, leaf, key, row), root, chain)
  {
    hide ChainOk, ContentsOk, LocalOk, KidsOk, ParentOk, Occupied;
    PlaceIsReady(g, root, chain, contents, leaf, key);
    LeafInsertKeepsShape(g, root, leaf, key, row);
    LeafInsertKeepsChain(g, chain, leaf, key, row);
    LeafInsertContents(g, contents, leaf, key, row);
    hide Shape;
  }

  /** A full leaf after the merge and the split, before its parent hears of it. */
  ghost function AfterFullLeaf(g: Graph, leaf: Node, key: int, row: int, q: Node): (g': Graph)
    requires leaf in g && g[leaf].leaf && |g[leaf].rows| == |g[leaf].keys| == MAX_KEYS
  {
    AfterLeafSplit(AfterLeafInsert(g, leaf, key, row), leaf, q)
  }

  ghost function ChainAfterSplit(chain: seq<Node>, leaf: Node, q: Node): (nodes: seq<Node>)
    requires leaf in chain
  {
    var at :| 0 <= at < |chain| && chain[at] == leaf;
    InsertAt(chain, at + 1, q)
  }

  lemma FullLeafShape(g: Graph, root: Node, chain: seq<Node>, contents: map<int, int>, leaf: Node, key: int, row: int,
                      q: Node)
    requires PlaceFor(g, root, chain, contents, leaf, key) && q !in g
    requires g[leaf].leaf && |g[leaf].rows| == |g[leaf].keys| == MAX_KEYS
    ensures var g2 := AfterFullLeaf(g, leaf, key, row, q);
            && Shape(g2, root, Split(leaf, q), null) && Occupied(g2[leaf])
            && g2[q].lo == AfterLeafInsert(g, leaf, key, row)[leaf].keys[16]
  {
    PlaceIsReady(g, root, chain, contents, leaf, key);
    LeafInsertKeepsShape(g, root, leaf, key, row);
    hide RootOk, KidsOk, ParentOk, LocalOk;
    LeafSplitKeepsShape(AfterLeafInsert(g, leaf, key, row), root, leaf, q);
  }

  lemma FullLeafLeaves(g: Graph, root: Node, chain: seq<Node>, contents: map<int, int>, leaf: Node, key: int,
                       row: int, q: Node)
    requires PlaceFor(g, root, chain, contents, leaf, key) && q !in g
    requires g[leaf].leaf && |g[leaf].rows| == |g[leaf].keys| == MAX_KEYS
    ensures leaf in chain
    ensures ChainOk(AfterFullLeaf(g, leaf, key, row, q), ChainAfterSplit(chain, leaf, q))
    ensures ContentsOk(AfterFullLeaf(g, leaf, key, row, q), contents[key := row])
  {
    var g1 := AfterLeafInsert(g, leaf, key, row);
    forall i, j | 0 <= i < j < |chain| ensures chain[i] != chain[j] {
      ChainIncreases(g, root, Nothing, null, chain, i, j);
    }
    hide Shape;
    LeafInsertKeepsChain(g, chain, leaf, key, row);
    LeafInsertContents(g, contents, leaf, key, row);
    LeafSplitContents(g1, contents[key := row], leaf, q);
    var at :| 0 <= at < |chain| && chain[at] == leaf && ChainAfterSplit(chain, leaf, q) == InsertAt(chain, at + 1, q);
    LeafSplitKeepsChain(g1, chain, leaf, q, at);
  }

  lemma FullLeafSameAbove(g: Graph, root: Node, leaf: Node, key: int, row: int, q: Node)
    requires leaf in g && g[leaf].leaf && g[leaf].height == 0 && root in g && q !in g
    requires |g[leaf].rows| == |g[leaf].keys| == MAX_KEYS
    ensures var g2 := AfterFullLeaf(g, leaf, key, row, q);
            && leaf in g2 && root in g2 && SameAbove(g, g2, 0) && g2[leaf].parent == g[leaf].parent
            && g2[root].height == g[root].height && g2[leaf].height == 0
  {
  }

  lemma PathFullFromLeaf(g: Graph, root: Node, key: int)
    requires Shape(g, root, Nothing, null)
    requires |g[Descend(g, root, root, key, 0)].keys| == MAX_KEYS
    ensures PathFull(g, root, key, 0) == PathFull(g, root, key, 1)
  {
  }

  lemma FullLeafHeight(g: Graph, root: Node, leaf: Node, key: int, g2: Graph)
    requires Shape(g, root, Nothing, null) && leaf == Descend(g, root, root, key, 0) && leaf in g2
    requires |g[leaf].keys| == MAX_KEYS
    requires SameAbove(g, g2, 0) && g2[leaf].parent == g[leaf].parent
    ensures FullAbove(g2, leaf, g[root].height) == PathFull(g, root, key, 0)
  {
    PathFullFromLeaf(g, root, key);
    FullAboveIsPathFull(g, root, key, 0);
    hide PathFull, SameAbove, RootOk, LocalsOk, KidsOk, ParentOk;
    FullAboveFrame(g, g2, root, Nothing, null, leaf, g[root].height);
  }

  lemma PlaceIsRooted(g: Graph, root: Node, leaf: Node, key: int)
    requires Shape(g, root, Nothing, null) && leaf == Descend(g, root, root, key, 0)
    ensures root in g && leaf in g && g[leaf].height == 0
  {
  }

  /** `bptree_split_leaf`: the climb, seen from the leaf. */
  method SplitLeaf(root: Node, leaf: Node, key: int, row: int, ghost g: Graph, ghost repr: set<object>,
                   ghost chain: seq<Node>, ghost contents: map<int, int>)
    returns (newRoot: Node, ok: bool, ghost g': Graph, ghost repr': set<object>, ghost chain': seq<Node>)
    requires Wired(g, repr) && PlaceFor(g, root, chain, contents, leaf, key)
    requires g[leaf].leaf && |g[leaf].rows| == |g[leaf].keys| == MAX_KEYS
    modifies repr
    ensures ok && TreeWith(g, root, contents, key, row, g', newRoot, chain')
    ensures Wired(g', repr') && repr <= repr' && fresh(repr' - repr)
  {
    hide Wired, Shape, ChainOk, ContentsOk, AfterLeafInsert, AfterLeafSplit, Descend, PathFull, FullAbove, SameLeaves,
      SameAbove;
    PlaceIsRooted(g, root, leaf, key);
    var newLeaf, separator := SplitLeafHeap(leaf, key, row, g, repr);
    ghost var g2 := AfterFullLeaf(g, leaf, key, row, newLeaf);
    FullLeafShape(g, root, chain, contents, leaf, key, row, newLeaf);
    FullLeafLeaves(g, root, chain, contents, leaf, key, row, newLeaf);
    FullLeafSameAbove(g, root, leaf, key, row, newLeaf);
    FullLeafHeight(g, root, leaf, key, g2);
    chain' := ChainAfterSplit(chain, leaf, newLeaf);
    newRoot, ok, g', repr' := InsertIntoParent(root, leaf, separator, newLeaf, g2, repr + Territory(newLeaf));
    SameLeavesKeepChain(g2, g', chain');
    SameLeavesKeepContents(g2, g', contents[key := row]);
  }

  ghost function FirstLeafState(key: int, rowIndex: int): (state: NodeState) {
    NodeState(true, [key], [rowIndex], [], null, null, 0, KEY_MIN, KEY_LIMIT)
  }

  /** The branch of `bptree_insert` that makes the first leaf. */
  method MakeFirstLeaf(key: int, rowIndex: int) returns (leaf: Node)
    ensures fresh(Territory(leaf))
    ensures Wired(map[leaf := FirstLeafState(key, rowIndex)], Territory(leaf))
  {
    leaf := new Node(true);
    leaf.keys[0] := key;
    leaf.rowIndices[0] := rowIndex;
    leaf.keyCount := 1;
  }

  lemma FirstLeafIsTree(leaf: Node, key: int, rowIndex: int)
    requires KEY_MIN <= key < KEY_LIMIT
    ensures var g := map[leaf := FirstLeafState(key, rowIndex)];
            Shape(g, leaf, Nothing, null) && ChainOk(g, [leaf]) && ContentsOk(g, map[key := rowIndex])
  {
    var g := map[leaf := FirstLeafState(key, rowIndex)];
    assert Holds(g, leaf, key);
  }

  /** The second search of `bptree_insert`, and its look at the leaf's key count. */
  method FindPlace(root: Node, key: int, ghost g: Graph, ghost repr: set<object>, ghost chain: seq<Node>,
                   ghost contents: map<int, int>)
    returns (leaf: Node, roomy: bool)
    requires Wired(g, repr) && Shape(g, root, Nothing, null) && ChainOk(g, chain) && ContentsOk(g, contents)
    requires KEY_MIN <= key < KEY_LIMIT && key !in contents
    ensures PlaceFor(g, root, chain, contents, leaf, key)
    ensures g[leaf].leaf && |g[leaf].rows| == |g[leaf].keys| <= MAX_KEYS && roomy == (|g[leaf].keys| < MAX_KEYS)
  {
    var found := FindLeaf(root, key, g, repr);
    leaf := found;
    PlaceIsReady(g, root, chain, contents, leaf, key);
    WiredAt(g, repr, leaf);
    hide Wired, Shape, ChainOk, ContentsOk;
    roomy := leaf.keyCount < MAX_KEYS;
  }

  // ---- the tree as an object -----------------------------------------------------------------

  class BPTree {
    var root: Node?
    ghost var g: Graph
    ghost var chain: seq<Node>
    ghost var contents: map<int, int>
    ghost var repr: set<object>

    /** The heap is a B+ tree in good shape whose leaves spell out `contents`. */
    ghost predicate Valid()
      reads this, repr
    {
      && this !in repr && Wired(g, repr)
      && (if root == null then g == map[] && chain == [] && contents == map[]
          else Shape(g, root, Nothing, null) && ChainOk(g, chain) && ContentsOk(g, contents))
    }

    constructor ()
      ensures Valid() && fresh(repr) && contents == map[]
    {
      root := null;
      g, chain, contents, repr := map[], [], map[], {};
    }

    /** `bptree_free`, which the owner follows by clearing its root pointer. */
    method Free()
      modifies this
      ensures Valid() && contents == map[] && repr == {}
    {
      root := null;
      g, chain, contents, repr := map[], [], map[], {};
    }

    /** How many levels the tree has. */
    ghost function Levels(): (n: nat)
      requires Valid()
      reads this, repr
    {
      if root == null then 0 else g[root].height + 1
    }

    /** Every node the search for `key` visits is full. */
    ghost predicate SearchPathFull(key: int)
      requires Valid()
      reads this, repr
    {
      root != null ==> PathFull(g, root, key, 0)
    }

    /** `bptree_search`. */
    method Search(key: int) returns (found: bool, rowIndex: int)
      requires Valid() && KEY_MIN <= key < KEY_LIMIT
      ensures found == (key in contents)
      ensures found ==> rowIndex == contents[key]
    {
      if root == null {
        return false, 0;
      }
      var leaf := FindLeaf(root, key, g, repr);
      SearchIsComplete(g, root, contents, key);
      assert LocalOk(g[leaf]);
      WiredAt(g, repr, leaf);
      found, rowIndex := FindInLeaf(leaf, key, g[leaf]);
    }

    /** `bptree_insert`: a duplicate key is refused and nothing changes; any other key
        is added, and the tree grows exactly when the whole search path was full. */
    method Insert(key: int, rowIndex: int) returns (ok: bool)
      requires Valid() && KEY_MIN <= key < KEY_LIMIT
      modifies this, repr
      ensures Valid() && fresh(repr - old(repr))
      ensures ok == (key !in old(contents))
      ensures ok ==> contents == old(contents)[key := rowIndex]
      ensures !ok ==> root == old(root) && g == old(g) && chain == old(chain) && contents == old(contents)
      ensures Levels() == old(Levels()) + if ok && old(SearchPathFull(key)) then 1 else 0
    {
      hide Wired, Shape, ChainOk, ContentsOk, PathFull;
      if root == null {
        var leaf := MakeFirstLeaf(key, rowIndex);
        FirstLeafIsTree(leaf, key, rowIndex);
        root := leaf;
        g, chain, repr := map[leaf := FirstLeafState(key, rowIndex)], [leaf], Territory(leaf);
        contents := map[key := rowIndex];
        return true;
      }
      var duplicate, ignored := Search(key);
      if duplicate {
        return false;
      }
      ok := AddNew(key, rowIndex);
    }

    method AddNew(key: int, rowIndex: int) returns (ok: bool)
      requires Valid() && root != null && KEY_MIN <= key < KEY_LIMIT && key !in contents
      modifies this, repr
      ensures ok && Valid() && fresh(repr - old(repr))
      ensures contents == old(contents)[key := rowIndex]
      ensures Levels() == old(Levels()) + if old(SearchPathFull(key)) then 1 else 0
    {
      hide Wired, Shape, ChainOk, ContentsOk, PathFull;
      var leaf, roomy := FindPlace(root, key, g, repr, chain, contents);
      ok := AddAt(leaf, key, rowIndex, roomy);
    }

    method AddAt(leaf: Node, key: int, rowIndex: int, roomy: bool) returns (ok: bool)
      requires Valid() && root != null && PlaceFor(g, root, chain, contents, leaf, key)
      requires g[leaf].leaf && |g[leaf].rows| == |g[leaf].keys| <= MAX_KEYS && roomy == (|g[leaf].keys| < MAX_KEYS)
      modifies this, repr
      ensures ok && Valid() && fresh(repr - old(repr))
      ensures contents == old(contents)[key := rowIndex]
      ensures Levels() == old(Levels()) + if old(SearchPathFull(key)) then 1 else 0
    {
      hide Wired, Shape, ChainOk, ContentsOk;
      ghost var g', repr', chain' := g, repr, chain;
      var newRoot: Node := root;
      if roomy {
        PutInLeaf(leaf, key, rowIndex, g, repr);
        RoomyLeafInserted(g, root, chain, contents, leaf, key, rowIndex);
        g' := AfterLeafInsert(g, leaf, key, rowIndex);
      } else {
        newRoot, ok, g', repr', chain' := SplitLeaf(root, leaf, key, rowIndex, g, repr, chain, contents);
      }
      root, ok := newRoot, true;
      g, chain, contents, repr := g', chain', contents[key := rowIndex], repr';
    }
  }

  /** A tree with a root is not empty, and an empty one has no root. */
  lemma RootMeansEntries(t: BPTree)
    requires t.Valid()
    ensures t.root != null <==> exists k :: k in t.contents
  {
    if t.root != null {
      var first := t.chain[0];
      assert LocalOk(t.g[first]);
      assert t.g[first].keys[0] in t.contents;
    }
  }
}
