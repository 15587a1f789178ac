/** Heap and graph together: `Wired(g, repr)` says that the nodes of `g` are on the
    heap, hold exactly what `g` says, and own buffers nobody else uses. Each method
    performs one of the edits of src/db/bptree.c on a wired graph. */
module BPTreeHeap {
  import opened BPTreeNode
  import opened BPTreeShape
  import opened BPTreeLeaves

  /** The fields of `n`, its parent link aside, hold what `s` says. */
  ghost predicate Cells(n: Node, s: NodeState)
    reads n`keyCount, n`next, n.keys, n.children, n.rowIndices
  {
    && n.WellSized()
    && n.isLeaf == s.leaf && n.keyCount == |s.keys| <= MAX_KEYS
    && n.keys[..n.keyCount] == s.keys && n.next == s.next
    && (if s.leaf then n.rowIndices[..n.keyCount] == s.rows else n.children[..n.keyCount + 1] == s.kids)
  }

  ghost predicate Represents(n: Node, s: NodeState)
    reads n, n.keys, n.children, n.rowIndices
  {
    Cells(n, s) && n.parent == s.parent
  }

  /** The nodes of `g` own their buffers, all of them inside `repr`. */
  ghost predicate Owned(g: Graph, repr: set<object>) {
    && (forall n :: n in g ==>
      n.WellSized() && n in repr && n.keys in repr && n.children in repr && n.rowIndices in repr)
    && (forall m, n :: m in g && n in g && m != n ==> Apart(m, n))
  }

  ghost predicate Wired(g: Graph, repr: set<object>)
    reads repr
  {
    && Owned(g, repr)
    && forall n :: n in g ==> Represents(n, g[n])
  }

  ghost function Territory(n: Node): (members: set<object>) {
    {n, n.keys, n.children, n.rowIndices}
  }

  lemma WiredAt(g: Graph, repr: set<object>, n: Node)
    requires Wired(g, repr) && n in g
    ensures Represents(n, g[n])
    ensures n in repr && n.keys in repr && n.children in repr && n.rowIndices in repr
    ensures forall m :: m in g && m != n ==> Apart(m, n)
  {
  }

  lemma OwnedUpdate(g: Graph, repr: set<object>, n: Node, s: NodeState)
    requires Owned(g, repr) && n in g
    ensures Owned(g[n := s], repr)
  {
  }

  lemma OwnedFresh(g: Graph, g': Graph, repr: set<object>, n: Node)
    requires Owned(g, repr) && g'.Keys == g.Keys + {n} && n.WellSized()
    requires n.keys !in repr && n.children !in repr && n.rowIndices !in repr
    ensures Owned(g', repr + Territory(n))
  {
    forall m | m in g' ensures m in g.Keys + {n} { assert m in g'.Keys; }
  }

  ghost function WithParent(s: NodeState, p: Node): (state: NodeState) {
    s.(parent := p)
  }

  lemma CellsIgnoreParent(n: Node, s: NodeState, p: Node)
    requires Cells(n, s) && n.parent == p
    ensures Represents(n, WithParent(s, p))
  {
  }

  // ---- a new root -----------------------------------------------------------

  method FillRoot(left: Node, key: int, right: Node, ghost height: nat) returns (top: Node)
    ensures fresh(Territory(top)) && Represents(top, NewRootState(left, right, key, height))
  {
    top := new Node(false);
    top.keys[0] := key;
    top.children[0] := left;
    top.children[1] := right;
    top.keyCount := 1;
  }

  method MakeNewRoot(left: Node, key: int, right: Node, ghost l: NodeState, ghost r: NodeState) returns (top: Node)
    requires left != right && Represents(left, l) && Represents(right, r)
    modifies left`parent, right`parent
    ensures fresh(Territory(top))
    ensures Represents(top, NewRootState(left, right, key, l.height + 1))
    ensures Represents(left, l.(parent := top)) && Represents(right, r.(parent := top))
  {
    hide Cells;
    top := FillRoot(left, key, right, l.height + 1);
    left.parent := top;
    right.parent := top;
    CellsIgnoreParent(left, l, top);
    CellsIgnoreParent(right, r, top);
  }

  lemma NewRootRepresented(g: Graph, left: Node, right: Node, top: Node)
    requires left in g && right in g && top !in g && left != right
    requires forall n :: n in g && n != left && n != right ==> Represents(n, g[n])
    requires Represents(left, g[left].(parent := top)) && Represents(right, g[right].(parent := top))
    requires Represents(top, NewRootState(left, right, g[right].lo, g[left].height + 1))
    ensures AfterNewRoot(g, left, right, top).Keys == g.Keys + {top}
    ensures forall n :: n in AfterNewRoot(g, left, right, top) ==> Represents(n, AfterNewRoot(g, left, right, top)[n])
  {
    hide Represents;
  }

  /** The parent-less branch of `bptree_insert_into_parent`. */
  method GrowRoot(left: Node, key: int, right: Node, ghost g: Graph, ghost repr: set<object>) returns (top: Node)
    requires Wired(g, repr) && left in g && right in g && left != right && key == g[right].lo
    modifies left`parent, right`parent
    ensures top !in g && fresh(Territory(top))
    ensures Wired(AfterNewRoot(g, left, right, top), repr + Territory(top))
  {
    WiredAt(g, repr, left);
    WiredAt(g, repr, right);
    hide Represents;
    top := MakeNewRoot(left, key, right, g[left], g[right]);
    forall n | n in g && n != left && n != right
      ensures Represents(n, g[n])
    {
      assert old(Represents(n, g[n]));
    }
    NewRootRepresented(g, left, right, top);
    OwnedFresh(g, AfterNewRoot(g, left, right, top), repr, top);
    hide Owned, AfterNewRoot;
  }

  // ---- a child enters its parent ---------------------------------------------

  method LinkCells(p: Node, i: nat, key: int, right: Node, ghost s: NodeState, ghost r: NodeState)
    requires p != right && Apart(right, p) && Represents(p, s) && Represents(right, r) && r.parent == p
    requires !s.leaf && i <= |s.keys| < MAX_KEYS && |s.kids| == |s.keys| + 1
    modifies p`keyCount, p.keys, p.children, right`parent
    ensures Represents(p, s.(keys := InsertAt(s.keys, i, key), kids := InsertAt(s.kids, i + 1, right)))
    ensures Represents(right, r)
  {
    InsertIntoInternal(p, i, key, right);
  }

  method LinkChild(p: Node, i: nat, key: int, right: Node, ghost g: Graph, ghost repr: set<object>)
    requires Wired(g, repr) && p in g && right in g && p != right && key == g[right].lo && g[right].parent == p
    requires !g[p].leaf && i <= |g[p].keys| < MAX_KEYS && |g[p].kids| == |g[p].keys| + 1
    modifies repr
    ensures Wired(AfterLink(g, p, i, right), repr)
  {
    WiredAt(g, repr, p);
    WiredAt(g, repr, right);
    hide Represents;
    LinkCells(p, i, key, right, g[p], g[right]);
    forall n | n in g && n != p && n != right
      ensures Represents(n, g[n])
    {
      assert old(Represents(n, g[n]));
    }
    OwnedUpdate(g, repr, p, AfterLink(g, p, i, right)[p]);
    hide Owned;
  }

  // ---- a full inner node is split ------------------------------------------------

  method SplitInnerCells(p: Node, i: nat, key: int, right: Node, ghost s: NodeState, ghost merged: NodeState)
    returns (q: Node, promoteKey: int)
    requires Represents(p, s) && !s.leaf && |s.keys| == MAX_KEYS && |s.kids| == MAX_KEYS + 1 && i <= MAX_KEYS
    requires merged == s.(keys := InsertAt(s.keys, i, key), kids := InsertAt(s.kids, i + 1, right))
    requires p !in merged.kids
    requires forall c :: c in merged.kids[..17] ==> c !in merged.kids[17..]
    modifies p`keyCount, p.keys, p.children
    modifies (set c | c in merged.kids)`parent
    ensures fresh(Territory(q)) && promoteKey == merged.keys[16]
    ensures Represents(p, LeftInner(merged)) && Represents(q, RightInner(merged))
    ensures forall c :: c in merged.kids[..17] ==> c.parent == p
    ensures forall c :: c in merged.kids[17..] ==> c.parent == q
  {
    q := new Node(false);
    assert merged.kids[..17] + merged.kids[17..] == merged.kids;
    promoteKey := SplitInternalCells(p, q, i, key, right, merged.kids[..17], merged.kids[17..]);
    assert merged.keys[..16] == p.Keys() && merged.keys[17..] == q.Keys();
  }

  /** The kids of an overfull inner node: known, distinct, pointing at it. */
  ghost predicate KidsPointBack(g: Graph, p: Node) {
    && p in g && p !in g[p].kids
    && (forall c :: c in g[p].kids ==> c in g && g[c].parent == p && g[c].height < g[p].height)
    && |g[p].kids| == MAX_KEYS + 2
    && (forall c :: c in g[p].kids[..17] ==> c !in g[p].kids[17..])
  }

  lemma OverfullKidsPointBack(g: Graph, root: Node, p: Node)
    requires Shape(g, root, Nothing, p) && p in g && !g[p].leaf && |g[p].keys| == MAX_KEYS + 1
    ensures KidsPointBack(g, p)
  {
    assert LocalOk(g[p]) && KidsOk(g, p, Nothing);
    forall c | c in g[p].kids ensures c in g && g[c].parent == p && g[c].height < g[p].height {
      var j :| 0 <= j < |g[p].kids| && g[p].kids[j] == c;
      assert KidOk(g, p, j, Nothing);
    }
    forall i, j | 0 <= i < 17 && 17 <= j < |g[p].kids| ensures g[p].kids[i] != g[p].kids[j] {
      KidsDistinct(g, p, Nothing, i, j);
    }
  }

  lemma InnerSplitRepresented(g: Graph, g1: Graph, p: Node, q: Node)
    requires KidsPointBack(g1, p) && !g1[p].leaf && |g1[p].keys| == MAX_KEYS + 1 && q !in g1
    requires p in g && g1 == g[p := g1[p]]
    requires forall n :: n in g && n != p ==> Cells(n, g[n]) && (n !in g1[p].kids ==> Represents(n, g[n]))
    requires forall c :: c in g1[p].kids[..17] ==> c.parent == p
    requires forall c :: c in g1[p].kids[17..] ==> c.parent == q
    requires Represents(p, LeftInner(g1[p])) && Represents(q, RightInner(g1[p]))
    ensures AfterInnerSplit(g1, p, q).Keys == g.Keys + {q}
    ensures forall n :: n in AfterInnerSplit(g1, p, q) ==> Represents(n, AfterInnerSplit(g1, p, q)[n])
  {
    assert g1[p].kids == g1[p].kids[..17] + g1[p].kids[17..];
    var g2 := AfterInnerSplit(g1, p, q);
    forall n | n in g2 ensures Represents(n, g2[n]) {
      if n in g1[p].kids {
        CellsIgnoreParent(n, g[n], n.parent);
        assert g1[n].parent == p;
      }
      hide Cells;
    }
  }

  lemma KidsApart(g: Graph, g1: Graph, repr: set<object>, p: Node)
    requires Owned(g, repr) && g1.Keys == g.Keys && p in g && KidsPointBack(g1, p)
    ensures forall c :: c in g1[p].kids ==> c in g && c in repr && Apart(c, p)
  {
    assert forall c :: c in g1[p].kids ==> c in g1.Keys;
  }

  method SplitInner(p: Node, i: nat, key: int, right: Node, ghost g: Graph, ghost repr: set<object>)
    returns (q: Node, promoteKey: int)
    requires Wired(g, repr) && p in g && right in g && key == g[right].lo
    requires !g[p].leaf && i <= |g[p].keys| == MAX_KEYS && |g[p].kids| == MAX_KEYS + 1
    requires KidsPointBack(AfterLink(g, p, i, right), p)
    modifies repr
    ensures q !in g && fresh(Territory(q)) && promoteKey == AfterLink(g, p, i, right)[p].keys[16]
    ensures Wired(AfterInnerSplit(AfterLink(g, p, i, right), p, q), repr + Territory(q))
  {
    ghost var g1 := AfterLink(g, p, i, right);
    ghost var kids := g1[p].kids;
    WiredAt(g, repr, p);
    KidsApart(g, g1, repr, p);
    hide Cells;
    q, promoteKey := SplitInnerCells(p, i, key, right, g[p], g1[p]);
    forall n | n in g && n != p
      ensures Cells(n, g[n]) && (n !in kids ==> Represents(n, g[n]))
    {
      assert old(Represents(n, g[n]));
    }
    InnerSplitRepresented(g, g1, p, q);
    OwnedFresh(g, AfterInnerSplit(g1, p, q), repr, q);
    hide Owned, AfterInnerSplit, AfterLink;
  }

  // ---- leaves ---------------------------------------------------------------------

  method PutInLeafCells(leaf: Node, key: int, row: int, ghost s: NodeState)
    requires Represents(leaf, s) && s.leaf && |s.keys| == |s.rows| < MAX_KEYS
    modifies leaf`keyCount, leaf.keys, leaf.rowIndices
    ensures Represents(leaf, s.(keys := InsertAt(s.keys, CountBelow(s.keys, key), key),
                                rows := InsertAt(s.rows, CountBelow(s.keys, key), row)))
  {
    var ok := InsertIntoLeaf(leaf, key, row);
  }

  method PutInLeaf(leaf: Node, key: int, row: int, ghost g: Graph, ghost repr: set<object>)
    requires Wired(g, repr) && leaf in g && g[leaf].leaf && |g[leaf].keys| == |g[leaf].rows| < MAX_KEYS
    modifies repr
    ensures Wired(AfterLeafInsert(g, leaf, key, row), repr)
  {
    WiredAt(g, repr, leaf);
    hide Cells, Represents;
    PutInLeafCells(leaf, key, row, g[leaf]);
    forall n | n in g && n != leaf
      ensures Represents(n, g[n])
    {
      assert old(Represents(n, g[n]));
    }
    OwnedUpdate(g, repr, leaf, AfterLeafInsert(g, leaf, key, row)[leaf]);
    hide Owned;
  }

  method SplitLeafStates(leaf: Node, key: int, row: int, ghost s: NodeState, ghost merged: NodeState)
    returns (q: Node, separator: int)
    requires Represents(leaf, s) && s.leaf && |s.keys| == |s.rows| == MAX_KEYS
    requires merged == s.(keys := InsertAt(s.keys, CountBelow(s.keys, key), key),
                          rows := InsertAt(s.rows, CountBelow(s.keys, key), row))
    modifies leaf`keyCount, leaf`next, leaf.keys, leaf.rowIndices
    ensures fresh(Territory(q)) && separator == merged.keys[16]
    ensures Represents(leaf, LeftLeaf(merged, q)) && Represents(q, RightLeaf(merged))
  {
    q := new Node(true);
    SplitLeafCells(leaf, q, key, row);
    separator := q.keys[0];
    assert leaf.Keys() == merged.keys[..16] && q.Keys() == merged.keys[16..];
    assert leaf.Rows() == merged.rows[..16] && q.Rows() == merged.rows[16..];
    assert separator == q.Keys()[0];
  }

  lemma LeafSplitRepresented(g: Graph, g1: Graph, leaf: Node, q: Node)
    requires leaf in g && leaf in g1 && g1 == g[leaf := g1[leaf]] && q !in g
    requires g1[leaf].leaf && |g1[leaf].keys| == |g1[leaf].rows| == MAX_KEYS + 1
    requires forall n :: n in g && n != leaf ==> Represents(n, g[n])
    requires Represents(leaf, LeftLeaf(g1[leaf], q)) && Represents(q, RightLeaf(g1[leaf]))
    ensures AfterLeafSplit(g1, leaf, q).Keys == g.Keys + {q}
    ensures forall n :: n in AfterLeafSplit(g1, leaf, q) ==> Represents(n, AfterLeafSplit(g1, leaf, q)[n])
  {
    hide Represents, LeftLeaf, RightLeaf;
  }

  method SplitLeafHeap(leaf: Node, key: int, row: int, ghost g: Graph, ghost repr: set<object>)
    returns (q: Node, separator: int)
    requires Wired(g, repr) && leaf in g && g[leaf].leaf && |g[leaf].keys| == |g[leaf].rows| == MAX_KEYS
    modifies repr
    ensures q !in g && fresh(Territory(q))
    ensures separator == AfterLeafInsert(g, leaf, key, row)[leaf].keys[16]
    ensures Wired(AfterLeafSplit(AfterLeafInsert(g, leaf, key, row), leaf, q), repr + Territory(q))
  {
    ghost var g1 := AfterLeafInsert(g, leaf, key, row);
    WiredAt(g, repr, leaf);
    hide Cells, Represents, LeftLeaf, RightLeaf, InsertAt, CountBelow;
    q, separator := SplitLeafStates(leaf, key, row, g[leaf], g1[leaf]);
    forall n | n in g && n != leaf
      ensures Represents(n, g[n])
    {
      assert old(Represents(n, g[n]));
    }
    hide AfterLeafInsert, AfterLeafSplit, Owned;
    LeafSplitRepresented(g, g1, leaf, q);
    OwnedFresh(g, AfterLeafSplit(g1, leaf, q), repr, q);
  }
}
