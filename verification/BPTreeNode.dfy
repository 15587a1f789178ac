/** The heap node of the id index (src/db/bptree.h) and the in-place array edits
    of src/db/bptree.c that touch only one node, or one node and its new sibling.
    Nothing here knows about trees: the contracts say what happens to the cells. */
module BPTreeNode {
  const MAX_KEYS: nat := 31

  /** The list `s` with `x` placed in front of position `i`. */
  function InsertAt<T>(s: seq<T>, i: nat, x: T): (r: seq<T>)
    requires i <= |s|
    ensures |r| == |s| + 1
  {
    s[..i] + [x] + s[i..]
  }

  /** How many leading keys are smaller than `key`: where an insertion scan stops. */
  function CountBelow(keys: seq<int>, key: int): (n: nat)
    ensures n <= |keys|
    ensures forall i :: 0 <= i < n ==> keys[i] < key
    ensures n < |keys| ==> key <= keys[n]
  {
    if keys == [] || key <= keys[0] then 0 else 1 + CountBelow(keys[1..], key)
  }

  lemma {:induction false} CountBelowIs(keys: seq<int>, key: int, n: nat)
    requires n <= |keys|
    requires forall i :: 0 <= i < n ==> keys[i] < key
    requires n < |keys| ==> key <= keys[n]
    ensures CountBelow(keys, key) == n
  {
    if keys != [] && keys[0] < key {
      CountBelowIs(keys[1..], key, n - 1);
    }
  }

  class Node {
    const isLeaf: bool
    var keyCount: nat
    const keys: array<int>
    var parent: Node?
    const children: array<Node?>
    const rowIndices: array<int>
    var next: Node?

    /** `bptree_create_node`: every field is zero except the leaf flag. */
    constructor (isLeaf: bool)
      ensures this.isLeaf == isLeaf && keyCount == 0 && parent == null && next == null
      ensures fresh(keys) && fresh(children) && fresh(rowIndices) && WellSized()
    {
      this.isLeaf := isLeaf;
      keyCount := 0;
      keys := new int[MAX_KEYS];
      parent := null;
      children := new Node?[MAX_KEYS + 1];
      rowIndices := new int[MAX_KEYS];
      next := null;
    }

    /** The three buffers have the sizes the header fixes and are different buffers. */
    ghost predicate WellSized() {
      && keys.Length == MAX_KEYS
      && children.Length == MAX_KEYS + 1
      && rowIndices.Length == MAX_KEYS
      && keys != rowIndices
    }

    ghost function Keys(): (values: seq<int>)
      requires keyCount <= keys.Length
      reads this, keys
    {
      keys[..keyCount]
    }

    ghost function Rows(): (values: seq<int>)
      requires keyCount <= rowIndices.Length
      reads this, rowIndices
    {
      rowIndices[..keyCount]
    }

    ghost function Kids(): (nodes: seq<Node?>)
      requires keyCount < children.Length
      reads this, children
    {
      children[..keyCount + 1]
    }
  }

  /** Two nodes share no buffer, so editing one leaves the other alone. */
  ghost predicate Apart(m: Node, n: Node) {
    && m.keys != n.keys && m.keys != n.rowIndices
    && m.rowIndices != n.keys && m.rowIndices != n.rowIndices
    && m.children != n.children
  }

  /** The position scan shared by the leaf insertion and the leaf split. */
  method FindInsertIndex(leaf: Node, key: int) returns (insertIndex: nat)
    requires leaf.WellSized() && leaf.keyCount <= MAX_KEYS
    ensures insertIndex == CountBelow(leaf.Keys(), key)
  {
    insertIndex := 0;
    while insertIndex < leaf.keyCount && leaf.keys[insertIndex] < key
      invariant insertIndex <= leaf.keyCount
      invariant forall j :: 0 <= j < insertIndex ==> leaf.keys[j] < key
    {
      insertIndex := insertIndex + 1;
    }
    CountBelowIs(leaf.Keys(), key, insertIndex);
  }

  /** The right-to-left shift that opens slot `at` of the first `count` cells,
      followed by the store into that slot. */
  method InsertCell<T>(cells: array<T>, count: nat, at: nat, x: T)
    requires at <= count < cells.Length
    modifies cells
    ensures cells[..count + 1] == InsertAt(old(cells[..count]), at, x)
  {
    var i := count;
    while i > at
      invariant at <= i <= count
      invariant forall j :: 0 <= j <= i ==> cells[j] == old(cells[j])
      invariant forall j :: i < j <= count ==> cells[j] == old(cells[j - 1])
    {
      cells[i] := cells[i - 1];
      i := i - 1;
    }
    cells[at] := x;
  }

  /** `bptree_insert_into_leaf`: refuses inner nodes and full leaves. */
  method InsertIntoLeaf(leaf: Node, key: int, rowIndex: int) returns (ok: bool)
    requires leaf.WellSized() && leaf.keyCount <= MAX_KEYS
    modifies leaf`keyCount, leaf.keys, leaf.rowIndices
    ensures ok == (leaf.isLeaf && old(leaf.keyCount) < MAX_KEYS)
    ensures !ok ==> unchanged(leaf) && unchanged(leaf.keys) && unchanged(leaf.rowIndices)
    ensures ok ==> leaf.keyCount == old(leaf.keyCount) + 1
    ensures ok ==> leaf.Keys() == InsertAt(old(leaf.Keys()), CountBelow(old(leaf.Keys()), key), key)
    ensures ok ==> leaf.Rows() == InsertAt(old(leaf.Rows()), CountBelow(old(leaf.Keys()), key), rowIndex)
  {
    if !leaf.isLeaf || leaf.keyCount >= MAX_KEYS {
      return false;
    }
    var at := FindInsertIndex(leaf, key);
    InsertCell(leaf.keys, leaf.keyCount, at, key);
    InsertCell(leaf.rowIndices, leaf.keyCount, at, rowIndex);
    leaf.keyCount := leaf.keyCount + 1;
    ok := true;
  }

  /** `bptree_insert_into_internal`. */
  method InsertIntoInternal(node: Node, childIndex: nat, key: int, rightChild: Node)
    requires node.WellSized() && childIndex <= node.keyCount < MAX_KEYS
    modifies node`keyCount, node.keys, node.children, rightChild`parent
    ensures node.keyCount == old(node.keyCount) + 1
    ensures node.Keys() == InsertAt(old(node.Keys()), childIndex, key)
    ensures node.Kids() == InsertAt(old(node.Kids()), childIndex + 1, rightChild)
    ensures rightChild.parent == node
  {
    InsertCell(node.keys, node.keyCount, childIndex, key);
    InsertCell(node.children, node.keyCount + 1, childIndex + 1, rightChild);
    rightChild.parent := node;
    node.keyCount := node.keyCount + 1;
  }

  /** The merge loop of both splits: `temp` becomes the first `count` cells of
      `source` with `x` in front of position `at`. */
  method FillTemp<T>(temp: array<T>, source: array<T>, count: nat, at: nat, x: T)
    requires temp != source && at <= count <= source.Length && count < temp.Length
    modifies temp
    ensures temp[..count + 1] == InsertAt(source[..count], at, x)
  {
    var i, j := 0, 0;
    ghost var merged := InsertAt(source[..count], at, x);
    while i < count + 1
      invariant 0 <= i <= count + 1
      invariant j == if i <= at then i else i - 1
      invariant forall k :: 0 <= k < i ==> temp[k] == merged[k]
      invariant merged == InsertAt(source[..count], at, x)
    {
      if i == at {
        temp[i] := x;
      } else {
        temp[i] := source[j];
        j := j + 1;
      }
      i := i + 1;
    }
  }

  /** The copy loops of both splits. */
  method CopyRange<T>(dest: array<T>, temp: array<T>, from: nat, to: nat)
    requires dest != temp && from <= to <= temp.Length && to - from <= dest.Length
    modifies dest
    ensures dest[..to - from] == temp[from..to]
  {
    var i, j := from, 0;
    while i < to
      invariant from <= i <= to && j == i - from
      invariant forall k :: 0 <= k < j ==> dest[k] == temp[from + k]
    {
      dest[j] := temp[i];
      i, j := i + 1, j + 1;
    }
  }

  /** The copy loops of `bptree_split_internal` over children, which also repoint
      each child's parent. */
  method AdoptChildren(dest: Node, temp: array<Node?>, from: nat, to: nat, ghost kids: seq<Node>)
    requires dest.children != temp && from <= to <= temp.Length && to - from <= dest.children.Length
    requires temp[from..to] == kids
    modifies dest.children, (set c | c in kids)`parent
    ensures dest.children[..to - from] == kids
    ensures forall c :: c in kids ==> c.parent == dest
  {
    var i, j := from, 0;
    while i < to
      invariant from <= i <= to && j == i - from
      invariant temp[from..to] == kids
      invariant forall k :: 0 <= k < j ==> dest.children[k] == kids[k] && kids[k].parent == dest
    {
      var child := temp[i];
      assert child == kids[j];
      dest.children[j] := child;
      if child != null {
        child.parent := dest;
      }
      i, j := i + 1, j + 1;
    }
  }

  /** No buffer of `n` is one of the two temporary lists. */
  ghost predicate ApartFromTemps(n: Node, tempKeys: array<int>, tempRows: array<int>) {
    && n.keys != tempKeys && n.keys != tempRows
    && n.rowIndices != tempKeys && n.rowIndices != tempRows
  }

  /** The part of `bptree_split_leaf` that moves cells: the old leaf keeps the
      first half of the merged lists and the new leaf, linked in after it, the rest. */
  method DistributeLeaf(leaf: Node, newLeaf: Node, tempKeys: array<int>, tempRows: array<int>, total: nat)
    requires leaf.WellSized() && newLeaf.WellSized() && leaf != newLeaf && Apart(leaf, newLeaf)
    requires ApartFromTemps(leaf, tempKeys, tempRows) && ApartFromTemps(newLeaf, tempKeys, tempRows)
    requires 2 <= total <= MAX_KEYS + 1 && tempKeys.Length == tempRows.Length == MAX_KEYS + 1
    modifies leaf`keyCount, leaf`next, leaf.keys, leaf.rowIndices
    modifies newLeaf, newLeaf.keys, newLeaf.rowIndices
    ensures leaf.keyCount == total / 2 && newLeaf.keyCount == total - total / 2
    ensures leaf.Keys() == tempKeys[..total / 2] && newLeaf.Keys() == tempKeys[total / 2..total]
    ensures leaf.Rows() == tempRows[..total / 2] && newLeaf.Rows() == tempRows[total / 2..total]
    ensures newLeaf.next == old(leaf.next) && leaf.next == newLeaf && newLeaf.parent == leaf.parent
  {
    var splitIndex := total / 2;
    CopyRange(leaf.keys, tempKeys, 0, splitIndex);
    CopyRange(leaf.rowIndices, tempRows, 0, splitIndex);
    leaf.keyCount := splitIndex;

    CopyRange(newLeaf.keys, tempKeys, splitIndex, total);
    CopyRange(newLeaf.rowIndices, tempRows, splitIndex, total);
    newLeaf.keyCount := total - splitIndex;

    newLeaf.next := leaf.next;
    leaf.next := newLeaf;
    newLeaf.parent := leaf.parent;
  }

  method SplitLeafCells(leaf: Node, newLeaf: Node, key: int, rowIndex: int)
    requires leaf.WellSized() && newLeaf.WellSized() && leaf != newLeaf && Apart(leaf, newLeaf)
    requires leaf.keyCount == MAX_KEYS
    modifies leaf`keyCount, leaf`next, leaf.keys, leaf.rowIndices
    modifies newLeaf, newLeaf.keys, newLeaf.rowIndices
    ensures leaf.keyCount == 16 && newLeaf.keyCount == 16
    ensures leaf.Keys() + newLeaf.Keys() == InsertAt(old(leaf.Keys()), CountBelow(old(leaf.Keys()), key), key)
    ensures leaf.Rows() + newLeaf.Rows() == InsertAt(old(leaf.Rows()), CountBelow(old(leaf.Keys()), key), rowIndex)
    ensures newLeaf.next == old(leaf.next) && leaf.next == newLeaf && newLeaf.parent == leaf.parent
  {
    var tempKeys := new int[MAX_KEYS + 1];
    var tempRows := new int[MAX_KEYS + 1];
    var at := FindInsertIndex(leaf, key);
    FillTemp(tempKeys, leaf.keys, leaf.keyCount, at, key);
    FillTemp(tempRows, leaf.rowIndices, leaf.keyCount, at, rowIndex);
    DistributeLeaf(leaf, newLeaf, tempKeys, tempRows, leaf.keyCount + 1);
  }

  /** The cells `from..to` of the merged list, and the child after them, become the
      content of `node`. */
  method MoveCells(node: Node, tempKeys: array<int>, tempChildren: array<Node?>, from: nat, to: nat,
                   ghost kids: seq<Node>)
    requires node.WellSized() && node.keys != tempKeys && node.children != tempChildren && node !in kids
    requires from <= to <= from + MAX_KEYS && to <= tempKeys.Length && to < tempChildren.Length
    requires tempChildren[from..to + 1] == kids
    modifies node`keyCount, node.keys, node.children
    modifies (set c | c in kids)`parent
    ensures node.WellSized() && node.keyCount == to - from
    ensures node.Keys() == tempKeys[from..to] && node.Kids() == kids
    ensures forall c :: c in kids ==> c.parent == node
  {
    CopyRange(node.keys, tempKeys, from, to);
    AdoptChildren(node, tempChildren, from, to + 1, kids);
    node.keyCount := to - from;
  }

  /** The part of `bptree_split_internal` that moves cells. The middle key of the
      merged list is promoted: neither node keeps it. */
  method DistributeInternal(node: Node, newNode: Node, tempKeys: array<int>, tempChildren: array<Node?>,
                            total: nat, ghost left: seq<Node>, ghost right: seq<Node>)
    requires node.WellSized() && newNode.WellSized() && node != newNode && Apart(node, newNode)
    requires node.keys != tempKeys && newNode.keys != tempKeys
    requires node.children != tempChildren && newNode.children != tempChildren
    requires 2 <= total <= MAX_KEYS + 1 && tempKeys.Length == MAX_KEYS + 1 && tempChildren.Length == MAX_KEYS + 2
    requires tempChildren[0..total / 2 + 1] == left && tempChildren[total / 2 + 1..total + 1] == right
    requires node !in left + right && newNode !in left + right
    requires forall c :: c in left ==> c !in right
    modifies node`keyCount, node.keys, node.children
    modifies newNode, newNode.keys, newNode.children
    modifies (set c | c in left + right)`parent
    ensures node.keyCount == total / 2 && newNode.keyCount == total - total / 2 - 1
    ensures node.Keys() == tempKeys[..total / 2] && newNode.Keys() == tempKeys[total / 2 + 1..total]
    ensures node.Kids() == left && newNode.Kids() == right
    ensures forall c :: c in left ==> c.parent == node
    ensures forall c :: c in right ==> c.parent == newNode
    ensures newNode.parent == node.parent && newNode.next == old(newNode.next)
  {
    var promoteIndex := total / 2;
    MoveCells(node, tempKeys, tempChildren, 0, promoteIndex, left);
    MoveCells(newNode, tempKeys, tempChildren, promoteIndex + 1, total, right);
    newNode.parent := node.parent;
  }

  method SplitInternalCells(node: Node, newNode: Node, at: nat, key: int, rightChild: Node,
                            ghost left: seq<Node>, ghost right: seq<Node>)
    returns (promoteKey: int)
    requires node.WellSized() && newNode.WellSized() && node != newNode && Apart(node, newNode)
    requires at <= node.keyCount == MAX_KEYS
    requires left + right == InsertAt(node.Kids(), at + 1, rightChild) && |left| == 17
    requires node !in left + right && newNode !in left + right
    requires forall c :: c in left ==> c !in right
    modifies node`keyCount, node.keys, node.children
    modifies newNode, newNode.keys, newNode.children
    modifies (set c | c in left + right)`parent
    ensures node.keyCount == 16 && newNode.keyCount == 15
    ensures node.Keys() + [promoteKey] + newNode.Keys() == InsertAt(old(node.Keys()), at, key)
    ensures node.Kids() == left && newNode.Kids() == right
    ensures forall c :: c in left ==> c.parent == node
    ensures forall c :: c in right ==> c.parent == newNode
    ensures newNode.parent == node.parent && newNode.next == old(newNode.next)
  {
    var tempKeys := new int[MAX_KEYS + 1];
    var tempChildren := new Node?[MAX_KEYS + 2];
    var total := node.keyCount + 1;
    FillTemp(tempKeys, node.keys, node.keyCount, at, key);
    FillTemp(tempChildren, node.children, node.keyCount + 1, at + 1, rightChild);
    promoteKey := tempKeys[total / 2];
    assert tempChildren[..total + 1] == left + right;
    assert tempChildren[0..17] == left;
    assert tempChildren[17..33] == right;
    DistributeInternal(node, newNode, tempKeys, tempChildren, total, left, right);
  }
}
