/** The pool that all trees of a forest allocate their nodes from, with its free list. */
module BForestPool {
  import opened Prelude
  import opened BForestLevels
  import opened BForestNode

  const MAP_LEAF: nat := INNER_SIZE - 1
  const SET_LEAF: nat := 2 * INNER_SIZE - 1

  datatype Slot =
    | InnerSlot(inner: InnerNode)
    | LeafSlot(leaf: LeafNode)
    | FreeSlot(next: Option<Node>)
  {
    ghost function Objs(): set<object> {
      match this
      case InnerSlot(inner) => inner.Repr()
      case LeafSlot(leaf) => leaf.Repr()
      case FreeSlot(_) => {}
    }

    ghost predicate Valid(leafCap: nat)
      reads Objs()
    {
      match this
      case InnerSlot(inner) => inner.Valid()
      case LeafSlot(leaf) => leaf.Valid() && leaf.keys.Length == leafCap
      case FreeSlot(_) => true
    }

    ghost function View(leafCap: nat): NodeData
      requires Valid(leafCap)
      reads Objs()
    {
      match this
      case InnerSlot(inner) => inner.View()
      case LeafSlot(leaf) => leaf.View()
      case FreeSlot(next) => Free(next)
    }
  }

  /** An inner node after the sub-tree at `index` and the key next to it were removed. */
  ghost function InnerWithout(d: NodeData, index: nat): NodeData
    requires WellFormed(d, false) && index < |d.tree|
  {
    if |d.keys| == 0 then Inner([], [])
    else Inner(RemoveAt(d.keys, if index == 0 then 0 else index - 1), RemoveAt(d.tree, index))
  }

  ghost predicate FreeAt(view: View, free: seq<Node>, i: nat)
    requires i < |free|
  {
    free[i] < |view| && view[free[i]] == Free(if i + 1 < |free| then Some(free[i + 1]) else None)
  }

  /** The free list `free` starts at `head`, is acyclic and holds every free slot. */
  ghost predicate FreeListOk(view: View, head: Option<Node>, free: seq<Node>) {
    && head == (if free == [] then None else Some(free[0]))
    && (forall i :: 0 <= i < |free| ==> FreeAt(view, free, i))
    && (forall i, j :: 0 <= i < j < |free| ==> free[i] != free[j])
    && (forall n :: 0 <= n < |view| && view[n].Free? ==> n in free)
  }

  lemma FreeListPop(view: View, head: Option<Node>, free: seq<Node>, d: NodeData)
    requires FreeListOk(view, head, free) && free != [] && !d.Free?
    ensures free[0] < |view| && view[free[0]].Free? && FreeListOk(view[free[0] := d], view[free[0]].next, free[1..])
  {
    assert FreeAt(view, free, 0);
    var view', rest := view[free[0] := d], free[1..];
    forall i | 0 <= i < |rest| ensures FreeAt(view', rest, i) {
      assert FreeAt(view, free, i + 1) && free[i + 1] != free[0];
    }
    forall n | 0 <= n < |view'| && view'[n].Free? ensures n in rest {
      assert view[n].Free? && n in free && n != free[0];
    }
  }

  lemma FreeListExtend(view: View, head: Option<Node>, d: NodeData)
    requires FreeListOk(view, head, []) && !d.Free?
    ensures FreeListOk(view + [d], head, [])
  {
    assert forall n :: 0 <= n < |view| ==> (view + [d])[n] == view[n];
  }

  lemma FreeListPush(view: View, head: Option<Node>, free: seq<Node>, n: Node)
    requires FreeListOk(view, head, free) && n < |view| && !view[n].Free?
    ensures FreeListOk(view[n := Free(head)], Some(n), [n] + free)
  {
    var view', free' := view[n := Free(head)], [n] + free;
    assert n !in free by {
      assert forall i :: 0 <= i < |free| ==> FreeAt(view, free, i) && view[free[i]].Free?;
    }
    forall i | 0 <= i < |free'| ensures FreeAt(view', free', i) {
      if i > 0 { assert FreeAt(view, free, i - 1) && free'[i] == free[i - 1]; }
    }
    forall m | 0 <= m < |view'| && view'[m].Free? ensures m in free' {
      if m == n { assert free'[0] == n; } else { assert view[m].Free? && m in free; }
    }
  }

  /** Changing a slot that is and stays occupied does not touch the free list. */
  lemma FreeListSkip(view: View, head: Option<Node>, free: seq<Node>, n: Node, d: NodeData)
    requires FreeListOk(view, head, free) && n < |view| && !view[n].Free? && !d.Free?
    ensures FreeListOk(view[n := d], head, free)
  {
    var view' := view[n := d];
    forall i | 0 <= i < |free| ensures FreeAt(view', free, i) {
      assert FreeAt(view, free, i) && view[free[i]].Free?;
    }
    forall m | 0 <= m < |view'| && view'[m].Free? ensures m in free {
      assert view[m].Free?;
    }
  }

  /** Different slots hold different nodes. */
  ghost predicate Apart(nodes: seq<Slot>, i: nat, j: nat)
    requires i < |nodes| && j < |nodes|
  {
    nodes[i].Objs() !! nodes[j].Objs()
  }

  ghost predicate AllApart(nodes: seq<Slot>) {
    forall i, j :: 0 <= i < |nodes| && 0 <= j < |nodes| && i != j ==> Apart(nodes, i, j)
  }

  class NodePool {
    const leafCap: nat
    var nodes: seq<Slot>
    var freelist: Option<Node>
    ghost var view: View
    ghost var free: seq<Node>
    ghost var Repr: set<object>

    ghost predicate SlotOk(i: nat)
      requires i < |nodes| == |view|
      reads this, Repr
    {
      && nodes[i].Objs() <= Repr && this !in nodes[i].Objs()
      && nodes[i].Valid(leafCap) && nodes[i].View(leafCap) == view[i]
    }

    ghost predicate Valid()
      reads this, Repr
      ensures Valid() ==> this in Repr
    {
      && this in Repr
      && (leafCap == MAP_LEAF || leafCap == SET_LEAF)
      && |view| == |nodes|
      && (forall i :: 0 <= i < |nodes| ==> SlotOk(i))
      && AllApart(nodes)
      && FreeListOk(view, freelist, free)
    }

    /** Validity with the recorded views of the occupied slots `a` and `b` possibly out of date. */
    ghost predicate ValidBut(a: Node, b: Node)
      reads this, Repr
    {
      && this in Repr
      && (leafCap == MAP_LEAF || leafCap == SET_LEAF)
      && |view| == |nodes| && a < |nodes| && b < |nodes|
      && (forall i :: 0 <= i < |nodes| && i != a && i != b ==> SlotOk(i))
      && AllApart(nodes)
      && FreeListOk(view, freelist, free)
      && EditedSlot(a) && EditedSlot(b)
    }

    ghost predicate EditedSlot(i: nat)
      requires i < |nodes| == |view|
      reads this, Repr
    {
      && nodes[i].Objs() <= Repr && this !in nodes[i].Objs()
      && nodes[i].Valid(leafCap) && !nodes[i].FreeSlot? && !view[i].Free?
    }

    /** Bring the recorded views of two edited slots up to date. */
    ghost method Resync(a: Node, b: Node)
      requires ValidBut(a, b)
      modifies this`view
      ensures Valid()
      ensures view == old(view)[a := nodes[a].View(leafCap)][b := nodes[b].View(leafCap)]
    {
      FreeListSkip(view, freelist, free, a, nodes[a].View(leafCap));
      FreeListSkip(view[a := nodes[a].View(leafCap)], freelist, free, b, nodes[b].View(leafCap));
      view := view[a := nodes[a].View(leafCap)][b := nodes[b].View(leafCap)];
      forall i | 0 <= i < |nodes| ensures SlotOk(i) {
        if i != a && i != b { assert old(SlotOk(i)); }
      }
    }

    constructor (leafCap: nat)
      requires leafCap == MAP_LEAF || leafCap == SET_LEAF
      ensures Valid() && fresh(Repr) && view == [] && this.leafCap == leafCap
    {
      this.leafCap := leafCap;
      nodes := [];
      freelist := None;
      view := [];
      free := [];
      Repr := {this};
    }

    /** Free all nodes at once. */
    method Clear()
      requires Valid()
      modifies this
      ensures Valid() && Repr == old(Repr) && view == []
    {
      nodes := [];
      freelist := None;
      view := [];
      free := [];
    }

    /** Take the first slot of the free list. */
    method Recycle(data: Slot)
      requires Valid() && !data.FreeSlot? && free != []
      requires data.Valid(leafCap) && data.Objs() !! Repr
      modifies this
      ensures Valid() && Repr == old(Repr) + data.Objs()
      ensures old(freelist).Some? && old(freelist).value < |old(view)| && old(view)[old(freelist).value].Free?
      ensures view == old(view)[old(freelist).value := data.View(leafCap)] && free == old(free)[1..]
    {
      var node := freelist.value;
      FreeListPop(view, freelist, free, data.View(leafCap));
      assert SlotOk(node) && nodes[node].FreeSlot?;
      freelist := nodes[node].next;
      nodes := nodes[node := data];
      view := view[node := data.View(leafCap)];
      free := free[1..];
      Repr := Repr + data.Objs();
      forall i | 0 <= i < |nodes| ensures SlotOk(i) && (i != node ==> nodes[i].Objs() <= old(Repr)) {
        if i != node { assert nodes[i] == old(nodes)[i] && old(SlotOk(i)); }
      }
      forall i, j | 0 <= i < |nodes| && 0 <= j < |nodes| && i != j ensures Apart(nodes, i, j) {
        assert Apart(old(nodes), i, j);
      }
    }

    /** Append a slot. */
    method Push(data: Slot)
      requires Valid() && !data.FreeSlot? && free == []
      requires data.Valid(leafCap) && data.Objs() !! Repr
      modifies this
      ensures Valid() && Repr == old(Repr) + data.Objs()
      ensures view == old(view) + [data.View(leafCap)] && free == []
    {
      FreeListExtend(view, freelist, data.View(leafCap));
      nodes := nodes + [data];
      view := view + [data.View(leafCap)];
      Repr := Repr + data.Objs();
      forall i | 0 <= i < |nodes| ensures SlotOk(i) && (i < |nodes| - 1 ==> nodes[i].Objs() <= old(Repr)) {
        if i < |nodes| - 1 { assert nodes[i] == old(nodes)[i] && old(SlotOk(i)); }
      }
      forall i, j | 0 <= i < |nodes| && 0 <= j < |nodes| && i != j ensures Apart(nodes, i, j) {
        if i < |nodes| - 1 && j < |nodes| - 1 { assert Apart(old(nodes), i, j); }
      }
    }

    /** Put `data` into a recycled or a new slot. */
    method AllocNode(data: Slot) returns (node: Node)
      requires Valid() && !data.FreeSlot?
      requires data.Valid(leafCap) && data.Objs() !! Repr
      modifies this
      ensures Valid() && Repr == old(Repr) + data.Objs()
      ensures ChangedOnly(old(view), view, {node})
      ensures node < |view| && view[node] == data.View(leafCap)
      ensures node >= |old(view)| || old(view)[node].Free?
      ensures node <= |old(view)|
      ensures |view| == if node < |old(view)| then |old(view)| else node + 1
      ensures free == if node < |old(view)| then old(free)[1..] else []
    {
      match freelist {
        case Some(n) =>
          node := n;
          Recycle(data);
        case None =>
          node := |nodes|;
          Push(data);
      }
    }

    /** Return a node to the free list. */
    method FreeNode(node: Node)
      requires Valid() && node < |view| && !view[node].Free?
      modifies this
      ensures Valid() && Repr == old(Repr)
      ensures view == old(view)[node := Free(old(freelist))]
      ensures free == [node] + old(free)
    {
      FreeListPush(view, freelist, free, node);
      nodes := nodes[node := FreeSlot(freelist)];
      view := view[node := Free(freelist)];
      free := [node] + free;
      freelist := Some(node);
      forall i | 0 <= i < |nodes| ensures SlotOk(i) {
        if i != node { assert nodes[i] == old(nodes)[i] && old(SlotOk(i)); }
      }
      forall i, j | 0 <= i < |nodes| && 0 <= j < |nodes| && i != j ensures Apart(nodes, i, j) {
        assert Apart(old(nodes), i, j);
      }
    }

    method TryLeafInsert(node: Node, index: nat, key: Key, value: Value) returns (inserted: bool)
      requires Valid() && node < |view| && WellFormed(view[node], true) && index <= |view[node].keys|
      modifies Repr
      ensures Valid() && Repr == old(Repr) && free == old(free)
      ensures inserted <==> |old(view)[node].keys| < leafCap
      ensures inserted ==> view == old(view)[node := Leaf(InsertAt(old(view)[node].keys, index, key), InsertAt(old(view)[node].vals, index, value))]
      ensures !inserted ==> view == old(view)
    {
      assert SlotOk(node) && nodes[node].LeafSlot?;
      var leaf := nodes[node].leaf;
      inserted := leaf.TryInsert(index, key, value);
      assert ValidBut(node, node) by {
        forall i | 0 <= i < |nodes| && i != node ensures SlotOk(i) {
          assert Apart(nodes, i, node) && old(SlotOk(i));
        }
      }
      Resync(node, node);
    }

    method TryInnerInsert(node: Node, index: nat, key: Key, child: Node) returns (inserted: bool)
      requires Valid() && node < |view| && WellFormed(view[node], false) && index <= |view[node].keys|
      modifies Repr
      ensures Valid() && Repr == old(Repr) && free == old(free)
      ensures inserted <==> |old(view)[node].tree| < INNER_SIZE
      ensures inserted ==> view == old(view)[node := Inner(InsertAt(old(view)[node].keys, index, key), InsertAt(old(view)[node].tree, index + 1, child))]
      ensures !inserted ==> view == old(view)
    {
      assert SlotOk(node) && nodes[node].InnerSlot?;
      var inner := nodes[node].inner;
      inserted := inner.TryInsert(index, key, child);
      assert ValidBut(node, node) by {
        forall i | 0 <= i < |nodes| && i != node ensures SlotOk(i) {
          assert Apart(nodes, i, node) && old(SlotOk(i));
        }
      }
      Resync(node, node);
    }

    /** Truncate the full leaf `node`; the cut off half is returned as a node that is not in the pool yet. */
    method SplitLeaf(node: Node, insertIndex: nat) returns (lhsEntries: nat, rhsEntries: nat, critKey: Key, rhs: Slot)
      requires Valid() && node < |view| && WellFormed(view[node], true) && |view[node].keys| == leafCap
      modifies Repr
      ensures Valid() && Repr == old(Repr) && free == old(free)
      ensures rhs.LeafSlot? && fresh(rhs.Objs()) && rhs.Valid(leafCap)
      ensures lhsEntries == SplitPos(leafCap, insertIndex) && rhsEntries == leafCap - lhsEntries
      ensures critKey == old(view)[node].keys[lhsEntries]
      ensures view == old(view)[node := Leaf(old(view)[node].keys[..lhsEntries], old(view)[node].vals[..lhsEntries])]
      ensures rhs.View(leafCap) == Leaf(old(view)[node].keys[lhsEntries..], old(view)[node].vals[lhsEntries..])
    {
      assert SlotOk(node) && nodes[node].LeafSlot?;
      var leaf := nodes[node].leaf;
      var data;
      lhsEntries, rhsEntries, critKey, data := leaf.Split(insertIndex);
      rhs := LeafSlot(data);
      assert old(view)[node] == old(leaf.View());
      assert ValidBut(node, node) by {
        forall i | 0 <= i < |nodes| && i != node ensures SlotOk(i) {
          assert Apart(nodes, i, node) && old(SlotOk(i));
        }
      }
      Resync(node, node);
    }

    method SplitInner(node: Node, insertIndex: nat) returns (lhsEntries: nat, rhsEntries: nat, critKey: Key, rhs: Slot)
      requires Valid() && node < |view| && WellFormed(view[node], false) && |view[node].tree| == INNER_SIZE
      modifies Repr
      ensures Valid() && Repr == old(Repr) && free == old(free)
      ensures rhs.InnerSlot? && fresh(rhs.Objs()) && rhs.Valid(leafCap)
      ensures lhsEntries == rhsEntries == 4
      ensures critKey == old(view)[node].keys[3]
      ensures view == old(view)[node := Inner(old(view)[node].keys[..3], old(view)[node].tree[..4])]
      ensures rhs.View(leafCap) == Inner(old(view)[node].keys[4..], old(view)[node].tree[4..])
    {
      assert SlotOk(node) && nodes[node].InnerSlot?;
      var inner := nodes[node].inner;
      var data;
      lhsEntries, rhsEntries, critKey, data := inner.Split(insertIndex);
      rhs := InnerSlot(data);
      assert old(view)[node] == old(inner.View());
      assert ValidBut(node, node) by {
        forall i | 0 <= i < |nodes| && i != node ensures SlotOk(i) {
          assert Apart(nodes, i, node) && old(SlotOk(i));
        }
      }
      Resync(node, node);
    }

    method LeafRemove(node: Node, index: nat) returns (status: Removed)
      requires Valid() && node < |view| && WellFormed(view[node], true) && index < |view[node].keys|
      modifies Repr
      ensures Valid() && Repr == old(Repr) && free == old(free)
      ensures status == RemovedStatus(index, |old(view)[node].keys| - 1, leafCap)
      ensures view == old(view)[node := Leaf(RemoveAt(old(view)[node].keys, index), RemoveAt(old(view)[node].vals, index))]
    {
      assert SlotOk(node) && nodes[node].LeafSlot?;
      var leaf := nodes[node].leaf;
      status := leaf.Remove(index);
      assert ValidBut(node, node) by {
        forall i | 0 <= i < |nodes| && i != node ensures SlotOk(i) {
          assert Apart(nodes, i, node) && old(SlotOk(i));
        }
      }
      Resync(node, node);
    }

    method InnerRemove(node: Node, index: nat) returns (status: Removed)
      requires Valid() && node < |view| && WellFormed(view[node], false) && index < |view[node].tree|
      modifies Repr
      ensures Valid() && Repr == old(Repr) && free == old(free)
      ensures status == RemovedStatus(index, |old(view)[node].keys|, INNER_SIZE)
      ensures view == old(view)[node := InnerWithout(old(view)[node], index)]
    {
      assert SlotOk(node) && nodes[node].InnerSlot?;
      var inner := nodes[node].inner;
      status := inner.Remove(index);
      assert ValidBut(node, node) by {
        forall i | 0 <= i < |nodes| && i != node ensures SlotOk(i) {
          assert Apart(nodes, i, node) && old(SlotOk(i));
        }
      }
      Resync(node, node);
    }

    method BalanceLeaves(lhs: Node, rhs: Node) returns (newCrit: Option<Key>)
      requires Valid() && lhs < |view| && rhs < |view| && lhs != rhs
      requires WellFormed(view[lhs], true) && WellFormed(view[rhs], true) && 2 * |view[lhs].keys| < leafCap
      modifies Repr
      ensures Valid() && Repr == old(Repr) && free == old(free)
      ensures |view| == |old(view)| && ChangedOnly(old(view), view, {lhs, rhs})
      ensures LeavesBalanced(leafCap, old(view)[lhs], old(view)[rhs], view[lhs], view[rhs], newCrit)
    {
      hide LeavesBalanced;
      assert SlotOk(lhs) && nodes[lhs].LeafSlot? && SlotOk(rhs) && nodes[rhs].LeafSlot?;
      var l, r := nodes[lhs].leaf, nodes[rhs].leaf;
      assert Apart(nodes, lhs, rhs);
      newCrit := l.Balance(r);
      assert ValidBut(lhs, rhs) by {
        forall i | 0 <= i < |nodes| && i != lhs && i != rhs ensures SlotOk(i) {
          assert Apart(nodes, i, lhs) && Apart(nodes, i, rhs) && old(SlotOk(i));
        }
      }
      Resync(lhs, rhs);
    }

    method BalanceInners(lhs: Node, critKey: Key, rhs: Node) returns (newCrit: Option<Key>)
      requires Valid() && lhs < |view| && rhs < |view| && lhs != rhs
      requires WellFormed(view[lhs], false) && WellFormed(view[rhs], false) && 2 * |view[lhs].tree| < INNER_SIZE
      modifies Repr
      ensures Valid() && Repr == old(Repr) && free == old(free)
      ensures |view| == |old(view)| && ChangedOnly(old(view), view, {lhs, rhs})
      ensures InnersBalanced(old(view)[lhs], critKey, old(view)[rhs], view[lhs], view[rhs], newCrit)
    {
      hide InnersBalanced;
      assert SlotOk(lhs) && nodes[lhs].InnerSlot? && SlotOk(rhs) && nodes[rhs].InnerSlot?;
      var l, r := nodes[lhs].inner, nodes[rhs].inner;
      assert Apart(nodes, lhs, rhs);
      newCrit := l.Balance(critKey, r);
      assert ValidBut(lhs, rhs) by {
        forall i | 0 <= i < |nodes| && i != lhs && i != rhs ensures SlotOk(i) {
          assert Apart(nodes, i, lhs) && Apart(nodes, i, rhs) && old(SlotOk(i));
        }
      }
      Resync(lhs, rhs);
    }

    /** Overwrite key `index` of the inner node `node`. */
    method SetKey(node: Node, index: nat, key: Key)
      requires Valid() && node < |view| && WellFormed(view[node], false) && index < |view[node].keys|
      modifies Repr
      ensures Valid() && Repr == old(Repr) && free == old(free)
      ensures view == old(view)[node := Inner(old(view)[node].keys[index := key], old(view)[node].tree)]
    {
      assert SlotOk(node) && nodes[node].InnerSlot?;
      var inner := nodes[node].inner;
      inner.keys[index] := key;
      assert inner.keys[..inner.size] == old(inner.keys[..inner.size])[index := key];
      assert ValidBut(node, node) by {
        forall i | 0 <= i < |nodes| && i != node ensures SlotOk(i) {
          assert Apart(nodes, i, node) && old(SlotOk(i));
        }
      }
      Resync(node, node);
    }

    /** Overwrite value `index` of the leaf `node`. */
    method SetVal(node: Node, index: nat, value: Value)
      requires Valid() && node < |view| && WellFormed(view[node], true) && index < |view[node].keys|
      modifies Repr
      ensures Valid() && Repr == old(Repr) && free == old(free)
      ensures view == old(view)[node := Leaf(old(view)[node].keys, old(view)[node].vals[index := value])]
    {
      assert SlotOk(node) && nodes[node].LeafSlot?;
      var leaf := nodes[node].leaf;
      leaf.vals[index] := value;
      assert leaf.vals[..leaf.size] == old(leaf.vals[..leaf.size])[index := value];
      assert ValidBut(node, node) by {
        forall i | 0 <= i < |nodes| && i != node ensures SlotOk(i) {
          assert Apart(nodes, i, node) && old(SlotOk(i));
        }
      }
      Resync(node, node);
    }

    // ---------------------------------------------------------------- reading a node

    predicate IsInner(node: Node)
      requires Valid() && node < |view|
      reads this, Repr
      ensures IsInner(node) == view[node].Inner?
    {
      assert SlotOk(node);
      nodes[node].InnerSlot?
    }

    /** Number of children of an inner node, or of pairs of a leaf. */
    function Entries(node: Node): nat
      requires Valid() && node < |view| && (WellFormed(view[node], false) || WellFormed(view[node], true))
      reads this, Repr
      ensures view[node].Inner? ==> Entries(node) == |view[node].tree|
      ensures view[node].Leaf? ==> Entries(node) == |view[node].keys|
    {
      assert SlotOk(node);
      match nodes[node]
      case InnerSlot(inner) => inner.size + 1
      case LeafSlot(leaf) => leaf.size
    }

    function InnerKey(node: Node, i: nat): Key
      requires Valid() && node < |view| && view[node].Inner? && i < |view[node].keys|
      reads this, Repr
      ensures InnerKey(node, i) == view[node].keys[i]
    {
      assert SlotOk(node);
      nodes[node].inner.keys[i]
    }

    function Child(node: Node, i: nat): Node
      requires Valid() && node < |view| && view[node].Inner? && i < |view[node].tree|
      reads this, Repr
      ensures Child(node, i) == view[node].tree[i]
    {
      assert SlotOk(node);
      nodes[node].inner.tree[i]
    }

    function LeafKey(node: Node, i: nat): Key
      requires Valid() && node < |view| && view[node].Leaf? && i < |view[node].keys|
      reads this, Repr
      ensures LeafKey(node, i) == view[node].keys[i]
    {
      assert SlotOk(node);
      nodes[node].leaf.keys[i]
    }

    function LeafVal(node: Node, i: nat): Value
      requires Valid() && node < |view| && view[node].Leaf? && i < |view[node].vals|
      reads this, Repr
      ensures LeafVal(node, i) == view[node].vals[i]
    {
      assert SlotOk(node);
      nodes[node].leaf.vals[i]
    }

    /** Binary search of `key` in the sorted keys of a node. */
    method Search(node: Node, key: Key) returns (found: bool, i: nat)
      requires Valid() && node < |view| && !view[node].Free?
      requires WellFormed(view[node], view[node].Leaf?)
      requires Ascending(view[node].keys)
      ensures i <= |view[node].keys|
      ensures forall a :: 0 <= a < i ==> view[node].keys[a] < key
      ensures found ==> i < |view[node].keys| && view[node].keys[i] == key
      ensures !found ==> forall a :: i <= a < |view[node].keys| ==> key < view[node].keys[a]
    {
      var inner := IsInner(node);
      var lo, hi := 0, if inner then Entries(node) - 1 else Entries(node);
      while lo < hi
        invariant 0 <= lo <= hi <= |view[node].keys|
        invariant forall a :: 0 <= a < lo ==> view[node].keys[a] < key
        invariant forall a :: hi <= a < |view[node].keys| ==> key < view[node].keys[a]
      {
        var mid := (lo + hi) / 2;
        var k := if inner then InnerKey(node, mid) else LeafKey(node, mid);
        if k == key {
          return true, mid;
        } else if k < key {
          lo := mid + 1;
        } else {
          hi := mid;
        }
      }
      return false, lo;
    }
  }
}
