/** What a well-shaped id index is, said on a value: a map from each node to what
    its fields hold, with three ghost facts per node (height above the leaves and
    the half-open key range `lo <= k < hi` the node is responsible for). Every
    clause looks at one node and its neighbours, so an edit is checked where it
    happens. `pending` describes the moment between splitting a node and telling
    its parent: `right` is then linked upwards but not yet downwards. */
module BPTreeShape {
  import opened BPTreeNode

  const KEY_MIN: int := -0x8000_0000
  const KEY_LIMIT: int := 0x8000_0000

  datatype NodeState = NodeState(leaf: bool, keys: seq<int>, rows: seq<int>, kids: seq<Node>,
                                 parent: Node?, next: Node?, height: nat, lo: int, hi: int)

  type Graph = map<Node, NodeState>

  datatype Pending = Nothing | Split(left: Node, right: Node)

  ghost predicate Sorted(keys: seq<int>) {
    forall i, j :: 0 <= i < j < |keys| ==> keys[i] < keys[j]
  }

  /** Lower end of the key range of child `i`: the separator on its left. */
  ghost function Lower(s: NodeState, i: nat): (n: int)
    requires i <= |s.keys|
  {
    if i == 0 then s.lo else s.keys[i - 1]
  }

  /** Upper end of the key range of child `i`: the separator on its right. */
  ghost function Upper(s: NodeState, i: nat): (n: int)
    requires i <= |s.keys|
  {
    if i == |s.keys| then s.hi else s.keys[i]
  }

  /** Keys in order and in range; a leaf pairs keys with rows, an inner node has
      one more child than keys, and its separators leave room on the left. */
  ghost predicate LocalOk(s: NodeState) {
    && 1 <= |s.keys|
    && Sorted(s.keys)
    && (forall i :: 0 <= i < |s.keys| ==> s.lo <= s.keys[i] < s.hi)
    && (if s.leaf then
          s.height == 0 && |s.rows| == |s.keys| && s.kids == []
        else
          s.height > 0 && |s.kids| == |s.keys| + 1 && s.rows == [] && s.lo < s.keys[0])
  }

  /** Minimum occupancy of a node other than the root. */
  ghost predicate Occupied(s: NodeState) {
    |s.keys| >= if s.leaf then 16 else 15
  }

  /** The range of a node as its parent sees it: a pending sibling still counts as
      part of its left half. */
  ghost function UpperOf(g: Graph, n: Node, pending: Pending): (count: int)
    requires n in g
  {
    if pending.Split? && n == pending.left && pending.right in g then g[pending.right].hi else g[n].hi
  }

  /** Child `i` of `n` points back, sits one level down and owns the range between
      its two separators. */
  ghost predicate KidOk(g: Graph, n: Node, i: nat, pending: Pending)
    requires n in g && !g[n].leaf && i < |g[n].kids| == |g[n].keys| + 1
  {
    var c := g[n].kids[i];
    && c in g
    && g[c].parent == n
    && g[c].height + 1 == g[n].height
    && g[c].lo == Lower(g[n], i)
    && UpperOf(g, c, pending) == Upper(g[n], i)
  }

  ghost predicate KidsOk(g: Graph, n: Node, pending: Pending)
    requires n in g && LocalOk(g[n])
  {
    !g[n].leaf ==> forall i :: 0 <= i < |g[n].kids| ==> KidOk(g, n, i, pending)
  }

  /** A node other than the root (and the pending one) is a child of its parent. */
  ghost predicate ParentOk(g: Graph, root: Node, n: Node, pending: Pending)
    requires n in g
  {
    n != root && !(pending.Split? && n == pending.right) ==>
      var p := g[n].parent;
      p != null && p in g && !g[p].leaf && n in g[p].kids
  }

  ghost predicate RootOk(g: Graph, root: Node, pending: Pending) {
    && root in g
    && g[root].parent == null
    && g[root].lo == KEY_MIN
    && UpperOf(g, root, pending) == KEY_LIMIT
  }

  ghost predicate PendingOk(g: Graph, root: Node, pending: Pending) {
    pending.Split? ==>
      var l, r := pending.left, pending.right;
      && l in g && r in g && l != r && r != root
      && g[l].hi == g[r].lo
      && g[l].parent == g[r].parent
      && g[l].height == g[r].height
  }

  /** How many keys `n` may hold: one node, `over`, is allowed one key too many
      between receiving a key and being split. */
  ghost function Limit(n: Node, over: Node?): (count: nat) {
    if n == over then MAX_KEYS + 1 else MAX_KEYS
  }

  ghost predicate LocalsOk(g: Graph, root: Node, over: Node?) {
    root in g && forall n :: n in g ==>
      && LocalOk(g[n]) && |g[n].keys| <= Limit(n, over)
      && (n != root ==> Occupied(g[n]))
      && g[n].height <= g[root].height
  }

  /** The whole shape invariant. */
  ghost predicate Shape(g: Graph, root: Node, pending: Pending, over: Node?) {
    && RootOk(g, root, pending)
    && PendingOk(g, root, pending)
    && LocalsOk(g, root, over)
    && (forall n :: n in g ==> KidsOk(g, n, pending))
    && (forall n :: n in g ==> ParentOk(g, root, n, pending))
  }

  // ---- one step up -------------------------------------------------------

  /** Both halves of a split of a node that is not the root hang under one inner
      parent, one level up. */
  lemma PendingParent(g: Graph, root: Node, left: Node, right: Node)
    requires Shape(g, root, Split(left, right), null) && left != root
    ensures var p := g[left].parent;
            && p != null && p in g && !g[p].leaf && left in g[p].kids
            && g[right].parent == p && g[p].height == g[left].height + 1
            && p != left && p != right
  {
    assert ParentOk(g, root, left, Split(left, right));
    var p := g[left].parent;
    assert KidsOk(g, p, Split(left, right));
    var i :| 0 <= i < |g[p].kids| && g[p].kids[i] == left;
    assert KidOk(g, p, i, Split(left, right));
  }

  /** A node without parent is the root. */
  lemma OrphanIsRoot(g: Graph, root: Node, left: Node, right: Node)
    requires Shape(g, root, Split(left, right), null) && g[left].parent == null
    ensures left == root
  {
    assert ParentOk(g, root, left, Split(left, right));
  }

  /** The separators below a node increase strictly, its own bounds included. */
  lemma LowerIncreases(s: NodeState, i: nat, j: nat)
    requires LocalOk(s) && !s.leaf && i < j <= |s.keys|
    ensures Lower(s, i) < Lower(s, j)
  {
  }

  lemma KidsDistinct(g: Graph, n: Node, pending: Pending, i: nat, j: nat)
    requires n in g && LocalOk(g[n]) && !g[n].leaf && KidsOk(g, n, pending)
    requires i < j < |g[n].kids|
    ensures g[n].kids[i] != g[n].kids[j]
  {
    LowerIncreases(g[n], i, j);
    assert KidOk(g, n, i, pending) && KidOk(g, n, j, pending);
  }

  // ---- a new root above a split root ---------------------------------------

  ghost function NewRootState(left: Node, right: Node, key: int, height: nat): (state: NodeState) {
    NodeState(false, [key], [], [left, right], null, null, height, KEY_MIN, KEY_LIMIT)
  }

  ghost function AfterNewRoot(g: Graph, left: Node, right: Node, top: Node): (g': Graph)
    requires left in g && right in g
  {
    g[top := NewRootState(left, right, g[right].lo, g[left].height + 1)]
    [left := g[left].(parent := top)]
    [right := g[right].(parent := top)]
  }

  /** The facts about a node that its parent's clause reads, apart from the link. */
  ghost predicate SameSpan(g: Graph, g': Graph, c: Node, pending: Pending, pending': Pending) {
    && c in g && c in g'
    && g'[c].height == g[c].height
    && g'[c].lo == g[c].lo
    && UpperOf(g', c, pending') == UpperOf(g, c, pending)
  }

  /** A node's own cells and range are as before; its links may differ. */
  ghost predicate SameCells(s: NodeState, s': NodeState) {
    s' == s.(parent := s'.parent, next := s'.next)
  }

  /** A node whose children kept their spans and their link to it is still fine. */
  lemma KidsFrame(g: Graph, g': Graph, n: Node, pending: Pending, pending': Pending)
    requires n in g && n in g' && SameCells(g[n], g'[n])
    requires LocalOk(g[n]) && KidsOk(g, n, pending)
    requires forall c :: c in g[n].kids && c in g && g[c].parent == n ==>
               SameSpan(g, g', c, pending, pending') && g'[c].parent == n
    ensures KidsOk(g', n, pending')
  {
    if !g[n].leaf {
      forall i | 0 <= i < |g[n].kids|
        ensures KidOk(g', n, i, pending')
      {
        assert KidOk(g, n, i, pending);
        assert g[n].kids[i] in g[n].kids;
      }
    }
  }

  lemma NewRootKids(g: Graph, left: Node, right: Node, top: Node, n: Node)
    requires Shape(g, left, Split(left, right), null) && top !in g && n in g
    ensures KidsOk(AfterNewRoot(g, left, right, top), n, Nothing)
  {
    assert KidsOk(g, n, Split(left, right));
    KidsFrame(g, AfterNewRoot(g, left, right, top), n, Split(left, right), Nothing);
  }

  lemma NewRootParents(g: Graph, left: Node, right: Node, top: Node, n: Node)
    requires Shape(g, left, Split(left, right), null) && top !in g && n in g
    ensures ParentOk(AfterNewRoot(g, left, right, top), top, n, Nothing)
  {
    assert ParentOk(g, left, n, Split(left, right));
    var kids := AfterNewRoot(g, left, right, top)[top].kids;
    assert kids[0] == left && kids[1] == right;
  }

  lemma NewRootTop(g: Graph, left: Node, right: Node, top: Node)
    requires Shape(g, left, Split(left, right), null) && top !in g
    ensures var g' := AfterNewRoot(g, left, right, top); LocalOk(g'[top]) && KidsOk(g', top, Nothing)
  {
    var g' := AfterNewRoot(g, left, right, top);
    assert LocalOk(g[left]) && LocalOk(g[right]);
    assert g[left].keys[0] < g[left].hi && g[right].keys[0] < g[right].hi;
    assert KidOk(g', top, 0, Nothing) && KidOk(g', top, 1, Nothing);
  }

  /** A new root changes nothing about the nodes below it but their parents. */
  lemma NewRootBelow(g: Graph, left: Node, right: Node, top: Node, n: Node)
    requires left in g && right in g && top !in g && n in g && LocalOk(g[n])
    ensures var g' := AfterNewRoot(g, left, right, top);
            && LocalOk(g'[n]) && |g'[n].keys| == |g[n].keys| && g'[n].height == g[n].height
            && (Occupied(g[n]) ==> Occupied(g'[n]))
  {
  }

  lemma NewRootItself(g: Graph, left: Node, right: Node, top: Node)
    requires left in g && right in g && top !in g
    ensures var g' := AfterNewRoot(g, left, right, top);
            && g'.Keys == g.Keys + {top} && RootOk(g', top, Nothing)
            && |g'[top].keys| == 1 && g'[top].height == g[left].height + 1
  {
  }

  lemma NewRootLocals(g: Graph, left: Node, right: Node, top: Node)
    requires Shape(g, left, Split(left, right), null) && top !in g
    requires Occupied(g[left])
    ensures LocalsOk(AfterNewRoot(g, left, right, top), top, null)
    ensures RootOk(AfterNewRoot(g, left, right, top), top, Nothing)
  {
    hide LocalOk, Occupied, KidsOk, ParentOk, AfterNewRoot, RootOk;
    var g' := AfterNewRoot(g, left, right, top);
    NewRootTop(g, left, right, top);
    NewRootItself(g, left, right, top);
    forall n | n in g && n in g'
      ensures LocalOk(g'[n]) && |g'[n].keys| <= MAX_KEYS && Occupied(g'[n]) && g'[n].height <= g'[top].height
    {
      NewRootBelow(g, left, right, top, n);
    }
  }

  lemma NewRootKeepsShape(g: Graph, left: Node, right: Node, top: Node)
    requires Shape(g, left, Split(left, right), null) && top !in g
    requires Occupied(g[left])
    ensures Shape(AfterNewRoot(g, left, right, top), top, Nothing, null)
  {
    hide LocalOk, Occupied, KidsOk, ParentOk, RootOk;
    var g' := AfterNewRoot(g, left, right, top);
    NewRootLocals(g, left, right, top);
    NewRootTop(g, left, right, top);
    forall n | n in g'
      ensures KidsOk(g', n, Nothing) && ParentOk(g', top, n, Nothing)
    {
      if n != top {
        NewRootKids(g, left, right, top, n);
        NewRootParents(g, left, right, top, n);
      } else {
        RootNeedsNoParent(g', top);
      }
    }
  }

  lemma RootNeedsNoParent(g: Graph, root: Node)
    requires root in g
    ensures ParentOk(g, root, root, Nothing)
  {
  }

  // ---- the new sibling enters its parent -----------------------------------

  /** The parent `p` takes the separator and the new sibling right of child `i`. */
  ghost function AfterLink(g: Graph, p: Node, i: nat, right: Node): (g': Graph)
    requires p in g && right in g && i <= |g[p].keys| && i < |g[p].kids|
    ensures g'.Keys == g.Keys
  {
    g[p := g[p].(keys := InsertAt(g[p].keys, i, g[right].lo), kids := InsertAt(g[p].kids, i + 1, right))]
  }

  ghost predicate LinkReady(g: Graph, root: Node, left: Node, right: Node, p: Node, i: nat) {
    && Shape(g, root, Split(left, right), null)
    && p in g && g[left].parent == p && !g[p].leaf
    && i < |g[p].kids| && g[p].kids[i] == left
  }

  lemma LinkBounds(g: Graph, root: Node, left: Node, right: Node, p: Node, i: nat)
    requires LinkReady(g, root, left, right, p, i)
    ensures i <= |g[p].keys|
    ensures Lower(g[p], i) < g[right].lo < Upper(g[p], i)
    ensures g[right].hi == Upper(g[p], i) && g[left].lo == Lower(g[p], i) && g[left].hi == g[right].lo
    ensures g[right].height + 1 == g[p].height == g[left].height + 1 <= g[root].height && p != left && p != right
    ensures |g[p].kids| == |g[p].keys| + 1
  {
    assert KidsOk(g, p, Split(left, right));
    assert KidOk(g, p, i, Split(left, right));
    assert LocalOk(g[left]) && LocalOk(g[right]);
    assert g[left].keys[0] < g[left].hi && g[right].keys[0] < g[right].hi;
  }

  lemma InsertSorted(keys: seq<int>, i: nat, key: int)
    requires Sorted(keys) && i <= |keys|
    requires i > 0 ==> keys[i - 1] < key
    requires i < |keys| ==> key < keys[i]
    ensures Sorted(InsertAt(keys, i, key))
  {
  }

  lemma LinkState(s: NodeState, i: nat, key: int, right: Node)
    requires LocalOk(s) && !s.leaf && i <= |s.keys| && Lower(s, i) < key < Upper(s, i)
    ensures |s.kids| == |s.keys| + 1
    ensures LocalOk(s.(keys := InsertAt(s.keys, i, key), kids := InsertAt(s.kids, i + 1, right)))
  {
    InsertSorted(s.keys, i, key);
  }

  lemma LinkLocal(g: Graph, root: Node, left: Node, right: Node, p: Node, i: nat)
    requires LinkReady(g, root, left, right, p, i)
    ensures i <= |g[p].keys| && LocalOk(AfterLink(g, p, i, right)[p])
  {
    LinkBounds(g, root, left, right, p, i);
    hide KidsOk, ParentOk, RootOk, PendingOk, LocalOk;
    LinkState(g[p], i, g[right].lo, right);
  }

  /** What the parent's own clause needs to know about the two halves. */
  ghost predicate HalvesFit(g: Graph, left: Node, right: Node, p: Node, i: nat) {
    && p in g && LocalOk(g[p]) && !g[p].leaf && KidsOk(g, p, Split(left, right))
    && left in g && right in g && p != left && p != right
    && i < |g[p].kids| && g[p].kids[i] == left
    && g[right].parent == p && g[right].height + 1 == g[p].height
    && g[right].hi == Upper(g[p], i) && g[left].hi == g[right].lo
  }

  lemma LinkEarlierKid(g: Graph, left: Node, right: Node, p: Node, i: nat, j: nat)
    requires HalvesFit(g, left, right, p, i) && j < i
    ensures KidOk(AfterLink(g, p, i, right), p, j, Nothing)
  {
    assert KidOk(g, p, j, Split(left, right));
    KidsDistinct(g, p, Split(left, right), j, i);
  }

  lemma LinkHalves(g: Graph, left: Node, right: Node, p: Node, i: nat)
    requires HalvesFit(g, left, right, p, i)
    ensures KidOk(AfterLink(g, p, i, right), p, i, Nothing)
    ensures KidOk(AfterLink(g, p, i, right), p, i + 1, Nothing)
  {
    assert KidOk(g, p, i, Split(left, right));
  }

  lemma LinkLaterKid(g: Graph, left: Node, right: Node, p: Node, i: nat, j: nat)
    requires HalvesFit(g, left, right, p, i) && i < j < |g[p].kids|
    ensures KidOk(AfterLink(g, p, i, right), p, j + 1, Nothing)
  {
    assert KidOk(g, p, j, Split(left, right));
    KidsDistinct(g, p, Split(left, right), i, j);
  }

  lemma LinkKids(g: Graph, left: Node, right: Node, p: Node, i: nat)
    requires HalvesFit(g, left, right, p, i) && LocalOk(AfterLink(g, p, i, right)[p])
    ensures KidsOk(AfterLink(g, p, i, right), p, Nothing)
  {
    var g' := AfterLink(g, p, i, right);
    forall j | 0 <= j < |g'[p].kids| ensures KidOk(g', p, j, Nothing) {
      if j < i {
        LinkEarlierKid(g, left, right, p, i, j);
      } else if j <= i + 1 {
        LinkHalves(g, left, right, p, i);
      } else {
        LinkLaterKid(g, left, right, p, i, j - 1);
      }
    }
  }

  lemma LinkOthers(g: Graph, root: Node, left: Node, right: Node, p: Node, i: nat, n: Node)
    requires LinkReady(g, root, left, right, p, i) && i <= |g[p].keys| && n in g && n != p
    ensures KidsOk(AfterLink(g, p, i, right), n, Nothing)
  {
    assert KidsOk(g, n, Split(left, right));
    KidsFrame(g, AfterLink(g, p, i, right), n, Split(left, right), Nothing);
  }

  lemma LinkParents(g: Graph, root: Node, left: Node, right: Node, p: Node, i: nat, n: Node)
    requires LinkReady(g, root, left, right, p, i) && i <= |g[p].keys| && n in g
    ensures ParentOk(AfterLink(g, p, i, right), root, n, Nothing)
  {
    hide KidsOk, LocalOk, Occupied, RootOk;
    var g' := AfterLink(g, p, i, right);
    assert ParentOk(g, root, n, Split(left, right));
    assert g'[p].kids[i + 1] == right;
    if n != root && n != right && g[n].parent == p {
      var j :| 0 <= j < |g[p].kids| && g[p].kids[j] == n;
      assert g'[p].kids[if j <= i then j else j + 1] == n;
    }
  }

  lemma LinkLocals(g: Graph, root: Node, left: Node, right: Node, p: Node, i: nat)
    requires LinkReady(g, root, left, right, p, i) && i <= |g[p].keys|
    requires LocalOk(AfterLink(g, p, i, right)[p])
    ensures LocalsOk(AfterLink(g, p, i, right), root, p)
    ensures RootOk(AfterLink(g, p, i, right), root, Nothing)
  {
  }

  lemma LinkKeepsShape(g: Graph, root: Node, left: Node, right: Node, p: Node, i: nat)
    requires LinkReady(g, root, left, right, p, i)
    ensures i <= |g[p].keys| && Shape(AfterLink(g, p, i, right), root, Nothing, p)
  {
    LinkLocal(g, root, left, right, p, i);
    LinkBounds(g, root, left, right, p, i);
    LinkLocals(g, root, left, right, p, i);
    LinkKids(g, left, right, p, i);
    hide LocalOk, Occupied, KidsOk, ParentOk, RootOk, LocalsOk;
    var g' := AfterLink(g, p, i, right);
    forall n | n in g'
      ensures KidsOk(g', n, Nothing) && ParentOk(g', root, n, Nothing)
    {
      LinkParents(g, root, left, right, p, i, n);
      if n != p {
        LinkOthers(g, root, left, right, p, i, n);
      }
    }
  }

  // ---- an inner node with one key too many is split ------------------------

  ghost function LeftInner(s: NodeState): (state: NodeState)
    requires !s.leaf && |s.keys| == MAX_KEYS + 1 && |s.kids| == MAX_KEYS + 2
  {
    s.(keys := s.keys[..16], kids := s.kids[..17], hi := s.keys[16])
  }

  ghost function RightInner(s: NodeState): (state: NodeState)
    requires !s.leaf && |s.keys| == MAX_KEYS + 1 && |s.kids| == MAX_KEYS + 2
  {
    s.(keys := s.keys[17..], kids := s.kids[17..], lo := s.keys[16], next := null)
  }

  ghost predicate InnerSplitReady(g: Graph, root: Node, p: Node, q: Node) {
    && Shape(g, root, Nothing, p)
    && p in g && q !in g && !g[p].leaf && |g[p].keys| == MAX_KEYS + 1
  }

  ghost function AfterInnerSplit(g: Graph, p: Node, q: Node): (g': Graph)
    requires p in g && !g[p].leaf && |g[p].keys| == MAX_KEYS + 1 && |g[p].kids| == MAX_KEYS + 2
    ensures g'.Keys == g.Keys + {q}
  {
    map n | n in g.Keys + {q} ::
      if n == q then RightInner(g[p])
      else if n == p then LeftInner(g[p])
      else if n in g[p].kids[17..] then g[n].(parent := q)
      else g[n]
  }

  lemma InnerSplitHalves(s: NodeState)
    requires LocalOk(s) && !s.leaf && |s.keys| == MAX_KEYS + 1
    ensures |s.kids| == MAX_KEYS + 2
    ensures LocalOk(LeftInner(s)) && |LeftInner(s).keys| == 16
    ensures LocalOk(RightInner(s)) && |RightInner(s).keys| == 15
  {
  }

  lemma InnerSplitLocals(g: Graph, root: Node, p: Node, q: Node)
    requires LocalsOk(g, root, p) && p in g && q !in g && !g[p].leaf && |g[p].keys| == MAX_KEYS + 1
    ensures |g[p].kids| == MAX_KEYS + 2 && LocalsOk(AfterInnerSplit(g, p, q), root, null)
  {
    hide LocalOk, Occupied, LeftInner, RightInner;
    InnerSplitHalves(g[p]);
    var g' := AfterInnerSplit(g, p, q);
    forall n | n in g'
      ensures LocalOk(g'[n]) && |g'[n].keys| <= MAX_KEYS && (n != root ==> Occupied(g'[n]))
        && g'[n].height <= g'[root].height
    {
      InnerSplitLocal(g, root, p, q, n);
    }
  }

  lemma InnerSplitLocal(g: Graph, root: Node, p: Node, q: Node, n: Node)
    requires LocalsOk(g, root, p) && p in g && q !in g && !g[p].leaf && |g[p].keys| == MAX_KEYS + 1
    requires |g[p].kids| == MAX_KEYS + 2 && n in AfterInnerSplit(g, p, q)
    ensures var s := AfterInnerSplit(g, p, q)[n];
            && LocalOk(s) && |s.keys| <= MAX_KEYS && (n != root ==> Occupied(s))
            && s.height <= AfterInnerSplit(g, p, q)[root].height
  {
    InnerSplitHalves(g[p]);
    hide LocalOk;
    if n != q && n != p {
      LocalIgnoresParent(g[n], q);
    }
  }

  lemma LocalIgnoresParent(s: NodeState, parent: Node)
    requires LocalOk(s)
    ensures LocalOk(s.(parent := parent))
  {
  }

  lemma InnerSplitRoot(g: Graph, root: Node, p: Node, q: Node)
    requires InnerSplitReady(g, root, p, q) && |g[p].kids| == MAX_KEYS + 2
    ensures RootOk(AfterInnerSplit(g, p, q), root, Split(p, q))
    ensures PendingOk(AfterInnerSplit(g, p, q), root, Split(p, q))
  {
    assert KidsOk(g, p, Nothing);
    forall j | 17 <= j < |g[p].kids| ensures g[p].kids[j] != root && g[p].kids[j] != p {
      assert KidOk(g, p, j, Nothing);
    }
  }

  lemma InnerSplitLeftKid(g: Graph, root: Node, p: Node, q: Node, i: nat)
    requires InnerSplitReady(g, root, p, q) && |g[p].kids| == MAX_KEYS + 2 && i < 17
    ensures KidOk(AfterInnerSplit(g, p, q), p, i, Split(p, q))
  {
    assert KidsOk(g, p, Nothing);
    assert KidOk(g, p, i, Nothing);
    forall j | 17 <= j < |g[p].kids| ensures g[p].kids[i] != g[p].kids[j] {
      KidsDistinct(g, p, Nothing, i, j);
    }
  }

  lemma InnerSplitRightKid(g: Graph, root: Node, p: Node, q: Node, i: nat)
    requires InnerSplitReady(g, root, p, q) && |g[p].kids| == MAX_KEYS + 2 && i < 16
    ensures KidOk(AfterInnerSplit(g, p, q), q, i, Split(p, q))
  {
    hide LocalOk, ParentOk, RootOk, PendingOk, KidOk, AfterInnerSplit;
    assert KidsOk(g, p, Nothing);
    RightKidMoves(g, p, q, i);
  }

  lemma RightKidMoves(g: Graph, p: Node, q: Node, i: nat)
    requires p in g && q !in g && !g[p].leaf && i < 16
    requires |g[p].keys| == MAX_KEYS + 1 && |g[p].kids| == MAX_KEYS + 2 && KidOk(g, p, 17 + i, Nothing)
    ensures KidOk(AfterInnerSplit(g, p, q), q, i, Split(p, q))
  {
    assert g[p].kids[17..][i] == g[p].kids[17 + i];
  }

  lemma InnerSplitOthers(g: Graph, root: Node, p: Node, q: Node, n: Node)
    requires InnerSplitReady(g, root, p, q) && |g[p].kids| == MAX_KEYS + 2 && n in g && n != p
    ensures KidsOk(AfterInnerSplit(g, p, q), n, Split(p, q))
  {
    assert KidsOk(g, n, Nothing) && KidsOk(g, p, Nothing);
    var g' := AfterInnerSplit(g, p, q);
    forall c | c in g[n].kids && c in g && g[c].parent == n
      ensures SameSpan(g, g', c, Nothing, Split(p, q)) && g'[c].parent == n
    {
      forall j | 17 <= j < |g[p].kids| ensures g[p].kids[j] != c {
        assert KidOk(g, p, j, Nothing);
      }
    }
    KidsFrame(g, g', n, Nothing, Split(p, q));
  }

  lemma InnerSplitParents(g: Graph, root: Node, p: Node, q: Node, n: Node)
    requires InnerSplitReady(g, root, p, q) && |g[p].kids| == MAX_KEYS + 2 && n in g
    ensures ParentOk(AfterInnerSplit(g, p, q), root, n, Split(p, q))
  {
    hide LocalOk, RootOk, PendingOk;
    assert ParentOk(g, root, n, Nothing) && KidsOk(g, p, Nothing);
    hide Shape;
    var g' := AfterInnerSplit(g, p, q);
    if n != root && g[n].parent == p {
      var j :| 0 <= j < |g[p].kids| && g[p].kids[j] == n;
      assert KidOk(g, p, j, Nothing);
      if j < 17 {
        assert g[p].kids[..17][j] == n;
      } else {
        assert g[p].kids[17..][j - 17] == n;
      }
    }
  }

  lemma InnerSplitKids(g: Graph, root: Node, p: Node, q: Node, n: Node)
    requires InnerSplitReady(g, root, p, q) && |g[p].kids| == MAX_KEYS + 2 && (n in g || n == q)
    requires LocalOk(AfterInnerSplit(g, p, q)[n])
    ensures KidsOk(AfterInnerSplit(g, p, q), n, Split(p, q))
  {
    var g' := AfterInnerSplit(g, p, q);
    if n == p {
      forall i | 0 <= i < |g'[p].kids| ensures KidOk(g', p, i, Split(p, q)) {
        InnerSplitLeftKid(g, root, p, q, i);
      }
    } else if n == q {
      forall i | 0 <= i < |g'[q].kids| ensures KidOk(g', q, i, Split(p, q)) {
        InnerSplitRightKid(g, root, p, q, i);
      }
    } else {
      InnerSplitOthers(g, root, p, q, n);
    }
  }

  lemma InnerSplitKeepsShape(g: Graph, root: Node, p: Node, q: Node)
    requires InnerSplitReady(g, root, p, q)
    ensures |g[p].kids| == MAX_KEYS + 2 && Shape(AfterInnerSplit(g, p, q), root, Split(p, q), null)
  {
    hide LocalOk, KidsOk, ParentOk, RootOk, PendingOk;
    InnerSplitLocals(g, root, p, q);
    InnerSplitRoot(g, root, p, q);
    var g' := AfterInnerSplit(g, p, q);
    forall n | n in g'
      ensures KidsOk(g', n, Split(p, q)) && ParentOk(g', root, n, Split(p, q))
    {
      InnerSplitKids(g, root, p, q, n);
      if n != q {
        InnerSplitParents(g, root, p, q, n);
      } else {
        InnerSplitPendingParent(g', root, p, q);
      }
    }
  }

  lemma InnerSplitPendingParent(g: Graph, root: Node, p: Node, q: Node)
    requires q in g
    ensures ParentOk(g, root, q, Split(p, q))
  {
  }
}
