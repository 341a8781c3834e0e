/** B+-tree nodes: fixed-size key, child and value buffers that are edited in place. */
module BForestNode {
  import opened Prelude
  import opened BForestLevels

  /** Insert `x` at offset `i` of the slice `a[lo..hi]`, pushing out its last element. */
  method SliceInsert<T>(a: array<T>, lo: nat, hi: nat, i: nat, x: T)
    requires lo + i < hi <= a.Length
    modifies a
    ensures forall k :: 0 <= k < a.Length && (k < lo + i || hi <= k) ==> a[k] == old(a[k])
    ensures a[lo + i] == x
    ensures forall k :: lo + i < k < hi ==> a[k] == old(a[k - 1])
  {
    var j := hi - 1;
    while j > lo + i
      invariant lo + i <= j < hi
      invariant forall k :: 0 <= k < a.Length && (k <= j || hi <= k) ==> a[k] == old(a[k])
      invariant forall k :: j < k < hi ==> a[k] == old(a[k - 1])
    {
      a[j] := a[j - 1];
      j := j - 1;
    }
    a[lo + i] := x;
  }

  /** Shift the slice `a[lo..hi]` to the left by `n` positions. */
  method SliceShift<T>(a: array<T>, lo: nat, hi: nat, n: nat)
    requires lo + n <= hi <= a.Length
    modifies a
    ensures forall k :: 0 <= k < a.Length && (k < lo || hi - n <= k) ==> a[k] == old(a[k])
    ensures forall k :: lo <= k < hi - n ==> a[k] == old(a[k + n])
  {
    for j := 0 to hi - n - lo
      invariant forall k :: 0 <= k < a.Length && (k < lo || lo + j <= k) ==> a[k] == old(a[k])
      invariant forall k :: lo <= k < lo + j ==> a[k] == old(a[k + n])
    {
      a[lo + j] := a[lo + j + n];
    }
  }

  /** Shift by one position: the element at `lo` is gone. */
  method CloseGap<T>(a: array<T>, lo: nat, hi: nat)
    requires lo < hi <= a.Length
    modifies a
    ensures a[..hi - 1] == RemoveAt(old(a[..hi]), lo)
  {
    SliceShift(a, lo, hi, 1);
  }

  /** Copy `n` elements of `src` from offset `from` to offset `to` of the different array `dst`. */
  method CopySlice<T>(dst: array<T>, to: nat, src: array<T>, from: nat, n: nat)
    requires dst != src && to + n <= dst.Length && from + n <= src.Length
    modifies dst
    ensures forall k :: 0 <= k < dst.Length && (k < to || to + n <= k) ==> dst[k] == old(dst[k])
    ensures forall k :: to <= k < to + n ==> dst[k] == src[from + (k - to)]
  {
    for j := 0 to n
      invariant forall k :: 0 <= k < dst.Length && (k < to || to + j <= k) ==> dst[k] == old(dst[k])
      invariant forall k :: to <= k < to + j ==> dst[k] == src[from + (k - to)]
    {
      dst[to + j] := src[from + j];
    }
  }

  /** Move `l[..m]` and `r[..n]` together to the front of `r`, with `l` as scratch space. */
  method MergeRight<T>(l: array<T>, m: nat, r: array<T>, n: nat)
    requires l != r && m + n <= l.Length && m + n <= r.Length
    modifies l, r
    ensures r[..m + n] == old(l[..m]) + old(r[..n])
  {
    CopySlice(l, m, r, 0, n);
    CopySlice(r, 0, l, 0, m + n);
  }

  /** Append the first `n` elements of `r[..len]` to `l[..m]`, then drop the first `shift` elements of `r[..len]`. */
  method ShareLeft<T>(l: array<T>, m: nat, r: array<T>, len: nat, n: nat, shift: nat)
    requires l != r && len <= r.Length && n <= shift <= len && m + n <= l.Length
    modifies l, r
    ensures l[..m + n] == (old(l[..m]) + old(r[..len]))[..m + n]
    ensures r[..len - shift] == (old(l[..m]) + old(r[..len]))[m + shift..]
  {
    ghost var joined := l[..m] + r[..len];
    CopySlice(l, m, r, 0, n);
    assert l[..m + n] == joined[..m + n];
    SliceShift(r, 0, len, shift);
    assert r[..len - shift] == joined[m + shift..];
  }

  /** Whether an insertion at `ins` goes to the upper of two halves, of which the lower one has `lhs` of `len` entries. */
  predicate GoesRight(len: nat, lhs: nat, ins: nat)
    requires lhs <= len
  {
    ins > lhs || (ins == lhs && lhs > len - lhs)
  }

  /**
   * Where to halve a full node with `len` entries after an insertion at `ins` failed: in the middle, and
   * if there is no middle, such that the halves are the same size after the insertion.
   */
  function SplitPos(len: nat, ins: nat): (r: nat)
    ensures r <= len && (r == len / 2 || r == (len + 1) / 2)
    ensures len % 2 == 0 ==> r == len - r
    ensures len % 2 == 1 ==> if GoesRight(len, r, ins) then r == len - r + 1 else r + 1 == len - r
  {
    if ins <= len / 2 then len / 2 else (len + 1) / 2
  }

  datatype Removed = Healthy | Rightmost | Underflow | Empty

  /** What a removal leaves: a node that is at least half full, and whether its last entry is gone, or one that is too small or empty. */
  function RemovedStatus(removed: nat, newSize: nat, capacity: nat): (r: Removed)
    ensures newSize > 0 ==> (2 * newSize < capacity <==> r == Underflow) && (r == Rightmost ==> removed == newSize)
    ensures newSize == 0 && capacity > 0 ==> r == Empty
    ensures r == Healthy ==> removed != newSize
  {
    if 2 * newSize >= capacity then
      if removed == newSize then Rightmost else Healthy
    else if newSize > 0 then Underflow
    else Empty
  }

  /** Outcome of balancing `l` with its right sibling `r`: all in `r'`, or shared out evenly. */
  ghost predicate InnersBalanced(l: NodeData, critKey: Key, r: NodeData, l': NodeData, r': NodeData, newCrit: Option<Key>)
    requires WellFormed(l, false) && WellFormed(r, false)
  {
    var ks, ts := l.keys + [critKey] + r.keys, l.tree + r.tree;
    var goal := (|ts| + 1) / 2;
    && (newCrit.None? <==> |ts| <= INNER_SIZE)
    && (newCrit.None? ==> l'.Inner? && r' == Inner(ks, ts))
    && (newCrit.Some? ==> l' == Inner(ks[..goal - 1], ts[..goal]) && r' == Inner(ks[goal..], ts[goal..]) && newCrit.value == ks[goal - 1])
  }

  ghost predicate LeavesBalanced(cap: nat, l: NodeData, r: NodeData, l': NodeData, r': NodeData, newCrit: Option<Key>)
    requires WellFormed(l, true) && WellFormed(r, true)
  {
    var ks, vs := l.keys + r.keys, l.vals + r.vals;
    var goal := (|ks| + 1) / 2;
    && (newCrit.None? <==> |ks| <= cap)
    && (newCrit.None? ==> l'.Leaf? && r' == Leaf(ks, vs))
    && (newCrit.Some? ==> goal < |ks| && l' == Leaf(ks[..goal], vs[..goal]) && r' == Leaf(ks[goal..], vs[goal..]) && newCrit.value == ks[goal])
  }

  /** Size value left behind when the only child of an inner node is removed (`0 - 1` in eight bits). */
  const EMPTIED: nat := 0xff

  class InnerNode {
    var size: nat
    const keys: array<Key>
    const tree: array<Node>

    ghost function Repr(): set<object> {
      {this, keys, tree}
    }

    ghost predicate Valid()
      reads this
    {
      keys.Length == INNER_SIZE - 1 && tree.Length == INNER_SIZE && (size < INNER_SIZE || size == EMPTIED)
    }

    ghost function View(): NodeData
      requires Valid()
      reads this, keys, tree
    {
      if size == EMPTIED then Inner([], []) else Inner(keys[..size], tree[..size + 1])
    }

    /** A node with the single key `key` between two sub-trees. */
    constructor (left: Node, key: Key, right: Node)
      ensures Valid() && fresh(Repr())
      ensures View() == Inner([key], [left, right])
    {
      size := 1;
      keys := new Key[INNER_SIZE - 1](_ => key);
      var t := new Node[INNER_SIZE](_ => right);
      tree := t;
      new;
      tree[0] := left;
    }

    /** A detached copy of the buffers, as a value copy of the node makes one. */
    constructor Copy(other: InnerNode)
      requires other.Valid()
      ensures Valid() && fresh(Repr())
      ensures size == other.size && keys[..] == other.keys[..] && tree[..] == other.tree[..]
    {
      size := other.size;
      var k := new Key[INNER_SIZE - 1](i requires 0 <= i < other.keys.Length reads other.keys => other.keys[i]);
      var t := new Node[INNER_SIZE](i requires 0 <= i < other.tree.Length reads other.tree => other.tree[i]);
      keys := k;
      tree := t;
    }

    /** Insert `key` at key position `index` and `node` as the sub-tree after it; refuse when full. */
    method TryInsert(index: nat, key: Key, node: Node) returns (inserted: bool)
      requires Valid() && index <= size < INNER_SIZE
      modifies Repr()
      ensures Valid()
      ensures inserted <==> old(size) < INNER_SIZE - 1
      ensures inserted ==> View() == Inner(InsertAt(old(keys[..size]), index, key), InsertAt(old(tree[..size + 1]), index + 1, node))
      ensures !inserted ==> View() == old(View())
    {
      var sz := size;
      if sz >= keys.Length {
        return false;
      }
      size := sz + 1;
      SliceInsert(keys, 0, sz + 1, index, key);
      assert keys[..sz + 1] == InsertAt(old(keys[..sz]), index, key);
      SliceInsert(tree, 1, sz + 2, index, node);
      assert tree[..sz + 2] == InsertAt(old(tree[..sz + 1]), index + 1, node);
      return true;
    }

    /** Move the upper half of a full node to a new node; the key between the halves is returned. */
    method Split(insertIndex: nat) returns (lhsEntries: nat, rhsEntries: nat, critKey: Key, rhs: InnerNode)
      requires Valid() && size == INNER_SIZE - 1
      modifies this
      ensures Valid() && fresh(rhs.Repr()) && rhs.Valid()
      ensures lhsEntries == rhsEntries == 4
      ensures critKey == old(View().keys)[3]
      ensures View() == Inner(old(View().keys)[..3], old(View().tree)[..4])
      ensures rhs.View() == Inner(old(View().keys)[4..], old(View().tree)[4..])
    {
      lhsEntries := SplitPos(tree.Length, insertIndex + 1);
      rhsEntries := tree.Length - lhsEntries;
      rhs := new InnerNode.Copy(this);
      CopySlice(rhs.keys, 0, keys, lhsEntries, rhsEntries - 1);
      CopySlice(rhs.tree, 0, tree, lhsEntries, rhsEntries);
      rhs.size := rhsEntries - 1;
      critKey := keys[lhsEntries - 1];
      size := lhsEntries - 1;
    }

    /** Remove the sub-tree at `index` together with the key next to it. */
    method Remove(index: nat) returns (status: Removed)
      requires Valid() && index <= size < INNER_SIZE
      modifies Repr()
      ensures Valid()
      ensures status == RemovedStatus(index, old(size), INNER_SIZE)
      ensures old(size) == 0 ==> View() == Inner([], [])
      ensures old(size) > 0 ==> View() == Inner(RemoveAt(old(keys[..size]), if index == 0 then 0 else index - 1), RemoveAt(old(tree[..size + 1]), index))
    {
      var ents := size + 1;
      size := if ents >= 2 then ents - 2 else EMPTIED;
      if ents > 1 {
        CloseGap(keys, if index == 0 then 0 else index - 1, ents - 1);
      }
      CloseGap(tree, index, ents);
      status := RemovedStatus(index, ents - 1, tree.Length);
    }

    /** Keys and sub-trees of this node, the separating key, and those of `rhs`, in order. */
    ghost function JoinedKeys(critKey: Key, rhs: InnerNode): seq<Key>
      requires keys.Length == rhs.keys.Length == INNER_SIZE - 1 && size < INNER_SIZE && rhs.size < INNER_SIZE
      reads this, keys, rhs, rhs.keys
    {
      keys[..size] + [critKey] + rhs.keys[..rhs.size]
    }

    ghost function JoinedTrees(rhs: InnerNode): seq<Node>
      requires tree.Length == rhs.tree.Length == INNER_SIZE && size < INNER_SIZE && rhs.size < INNER_SIZE
      reads this, tree, rhs, rhs.tree
    {
      tree[..size + 1] + rhs.tree[..rhs.size + 1]
    }

    method MergeInto(critKey: Key, rhs: InnerNode)
      requires Valid() && rhs.Valid() && Repr() !! rhs.Repr()
      requires size + rhs.size + 2 <= INNER_SIZE
      modifies Repr(), rhs.Repr()
      ensures Valid() && rhs.Valid() && size == 0
      ensures rhs.View() == Inner(old(JoinedKeys(critKey, rhs)), old(JoinedTrees(rhs)))
    {
      var lEnts, rEnts := size + 1, rhs.size + 1;
      size := 0;
      keys[lEnts - 1] := critKey;
      assert keys[..lEnts] == old(keys[..size]) + [critKey];
      MergeRight(keys, lEnts, rhs.keys, rEnts - 1);
      MergeRight(tree, lEnts, rhs.tree, rEnts);
      rhs.size := lEnts + rEnts - 1;
    }

    method ShareWith(critKey: Key, rhs: InnerNode) returns (crit: Key)
      requires Valid() && rhs.Valid() && Repr() !! rhs.Repr()
      requires size < 3 && rhs.size < INNER_SIZE < size + rhs.size + 2
      modifies Repr(), rhs.Repr()
      ensures Valid() && rhs.Valid()
      ensures var goal := old(size + rhs.size + 3) / 2;
        && View() == Inner(old(JoinedKeys(critKey, rhs))[..goal - 1], old(JoinedTrees(rhs))[..goal])
        && rhs.View() == Inner(old(JoinedKeys(critKey, rhs))[goal..], old(JoinedTrees(rhs))[goal..])
        && crit == old(JoinedKeys(critKey, rhs))[goal - 1]
    {
      var lEnts, rEnts := size + 1, rhs.size + 1;
      var ents := lEnts + rEnts;
      var rGoal := ents / 2;
      var lGoal := ents - rGoal;
      crit := rhs.keys[rEnts - rGoal - 1];
      assert crit == old(JoinedKeys(critKey, rhs))[lGoal - 1];
      ShareSlices(critKey, rhs, lGoal - lEnts);
      size := lGoal - 1;
      rhs.size := rGoal - 1;
    }

    /** Put `critKey` and the first `n` sub-trees of `rhs` behind those of this node, in the buffers only. */
    method ShareSlices(critKey: Key, rhs: InnerNode, n: nat)
      requires Valid() && rhs.Valid() && Repr() !! rhs.Repr()
      requires 1 <= n <= rhs.size < INNER_SIZE && size + 1 + n <= INNER_SIZE
      modifies keys, tree, rhs.keys, rhs.tree
      ensures keys[..size + n] == old(JoinedKeys(critKey, rhs))[..size + n]
      ensures rhs.keys[..rhs.size - n] == old(JoinedKeys(critKey, rhs))[size + 1 + n..]
      ensures tree[..size + 1 + n] == old(JoinedTrees(rhs))[..size + 1 + n]
      ensures rhs.tree[..rhs.size + 1 - n] == old(JoinedTrees(rhs))[size + 1 + n..]
    {
      keys[size] := critKey;
      assert keys[..size + 1] == old(keys[..size]) + [critKey];
      ShareLeft(keys, size + 1, rhs.keys, rhs.size, n - 1, n);
      ShareLeft(tree, size + 1, rhs.tree, rhs.size + 1, n, n);
    }

    /**
     * Balance an underflowed node with its right sibling: either everything moves to the sibling,
     * or the entries are shared out evenly and the key that now separates the two is returned.
     */
    method Balance(critKey: Key, rhs: InnerNode) returns (newCrit: Option<Key>)
      requires Valid() && rhs.Valid() && Repr() !! rhs.Repr()
      requires size < 3 && rhs.size < INNER_SIZE
      modifies Repr(), rhs.Repr()
      ensures Valid() && rhs.Valid()
      ensures InnersBalanced(old(View()), critKey, old(rhs.View()), View(), rhs.View(), newCrit)
    {
      if size + 1 + rhs.size + 1 <= rhs.tree.Length {
        MergeInto(critKey, rhs);
        newCrit := None;
      } else {
        var crit := ShareWith(critKey, rhs);
        newCrit := Some(crit);
      }
    }
  }

  class LeafNode {
    var size: nat
    const keys: array<Key>
    const vals: array<Value>

    ghost function Repr(): set<object> {
      {this, keys, vals}
    }

    ghost predicate Valid()
      reads this
    {
      keys.Length == vals.Length && keys as object != vals as object && size <= keys.Length
    }

    ghost function View(): NodeData
      requires Valid()
      reads this, keys, vals
    {
      Leaf(keys[..size], vals[..size])
    }

    /** A leaf with a single key-value pair and room for `cap` of them. */
    constructor (cap: nat, key: Key, value: Value)
      requires cap > 0
      ensures Valid() && fresh(Repr()) && keys.Length == cap
      ensures View() == Leaf([key], [value])
    {
      size := 1;
      keys := new Key[cap](_ => key);
      vals := new Value[cap](_ => value);
    }

    constructor Copy(other: LeafNode)
      requires other.Valid()
      ensures Valid() && fresh(Repr()) && keys.Length == other.keys.Length
      ensures size == other.size && keys[..] == other.keys[..] && vals[..] == other.vals[..]
    {
      size := other.size;
      var k := new Key[other.keys.Length](i requires 0 <= i < other.keys.Length reads other.keys => other.keys[i]);
      var v := new Value[other.vals.Length](i requires 0 <= i < other.vals.Length reads other.vals => other.vals[i]);
      keys := k;
      vals := v;
    }

    /** Insert a pair at `index`; refuse when full. */
    method TryInsert(index: nat, key: Key, value: Value) returns (inserted: bool)
      requires Valid() && index <= size
      modifies Repr()
      ensures Valid()
      ensures inserted <==> old(size) < keys.Length
      ensures inserted ==> View() == Leaf(InsertAt(old(keys[..size]), index, key), InsertAt(old(vals[..size]), index, value))
      ensures !inserted ==> View() == old(View())
    {
      var sz := size;
      if sz >= keys.Length {
        return false;
      }
      size := sz + 1;
      SliceInsert(keys, 0, sz + 1, index, key);
      assert keys[..sz + 1] == InsertAt(old(keys[..sz]), index, key);
      SliceInsert(vals, 0, sz + 1, index, value);
      assert vals[..sz + 1] == InsertAt(old(vals[..sz]), index, value);
      return true;
    }

    /** Move the upper half of a full leaf to a new leaf; its first key is the separating key. */
    method Split(insertIndex: nat) returns (lhsEntries: nat, rhsEntries: nat, critKey: Key, rhs: LeafNode)
      requires Valid() && size == keys.Length >= 2
      modifies this
      ensures Valid() && fresh(rhs.Repr()) && rhs.Valid() && rhs.keys.Length == keys.Length
      ensures lhsEntries == SplitPos(keys.Length, insertIndex) && rhsEntries == keys.Length - lhsEntries
      ensures critKey == old(View().keys)[lhsEntries]
      ensures View() == Leaf(old(View().keys)[..lhsEntries], old(View().vals)[..lhsEntries])
      ensures rhs.View() == Leaf(old(View().keys)[lhsEntries..], old(View().vals)[lhsEntries..])
    {
      ghost var ks, vs := keys[..], vals[..];
      assert View().keys == ks && View().vals == vs;
      lhsEntries := SplitPos(keys.Length, insertIndex);
      rhsEntries := keys.Length - lhsEntries;
      rhs := new LeafNode.Copy(this);
      CopySlice(rhs.keys, 0, keys, lhsEntries, rhsEntries);
      CopySlice(rhs.vals, 0, vals, lhsEntries, rhsEntries);
      assert rhs.keys[..rhsEntries] == ks[lhsEntries..] && rhs.vals[..rhsEntries] == vs[lhsEntries..];
      rhs.size := rhsEntries;
      critKey := keys[lhsEntries];
      size := lhsEntries;
      assert keys[..size] == ks[..size] && vals[..size] == vs[..size];
    }

    /** Remove the pair at `index`. */
    method Remove(index: nat) returns (status: Removed)
      requires Valid() && index < size
      modifies Repr()
      ensures Valid()
      ensures status == RemovedStatus(index, old(size) - 1, keys.Length)
      ensures View() == Leaf(RemoveAt(old(keys[..size]), index), RemoveAt(old(vals[..size]), index))
    {
      var sz := size;
      size := size - 1;
      CloseGap(keys, index, sz);
      CloseGap(vals, index, sz);
      status := RemovedStatus(index, sz - 1, keys.Length);
    }

    /** The pairs of this leaf followed by those of `rhs`. */
    ghost function JoinedKeys(rhs: LeafNode): seq<Key>
      requires size <= keys.Length && rhs.size <= rhs.keys.Length
      reads this, keys, rhs, rhs.keys
    {
      keys[..size] + rhs.keys[..rhs.size]
    }

    ghost function JoinedVals(rhs: LeafNode): seq<Value>
      requires size <= vals.Length && rhs.size <= rhs.vals.Length
      reads this, vals, rhs, rhs.vals
    {
      vals[..size] + rhs.vals[..rhs.size]
    }

    method MergeInto(rhs: LeafNode)
      requires Valid() && rhs.Valid() && Repr() !! rhs.Repr()
      requires keys.Length == rhs.keys.Length && size + rhs.size <= keys.Length
      modifies Repr(), rhs.Repr()
      ensures Valid() && rhs.Valid() && size == 0
      ensures rhs.View() == Leaf(old(JoinedKeys(rhs)), old(JoinedVals(rhs)))
    {
      var lEnts, rEnts := size, rhs.size;
      size := 0;
      MergeRight(keys, lEnts, rhs.keys, rEnts);
      MergeRight(vals, lEnts, rhs.vals, rEnts);
      rhs.size := lEnts + rEnts;
    }

    method ShareWith(rhs: LeafNode) returns (crit: Key)
      requires Valid() && rhs.Valid() && Repr() !! rhs.Repr()
      requires keys.Length == rhs.keys.Length && 2 * size < keys.Length < size + rhs.size
      modifies Repr(), rhs.Repr()
      ensures Valid() && rhs.Valid()
      ensures var goal := old(size + rhs.size + 1) / 2;
        && View() == Leaf(old(JoinedKeys(rhs))[..goal], old(JoinedVals(rhs))[..goal])
        && rhs.View() == Leaf(old(JoinedKeys(rhs))[goal..], old(JoinedVals(rhs))[goal..])
        && crit == old(JoinedKeys(rhs))[goal]
    {
      var lEnts, rEnts := size, rhs.size;
      var ents := lEnts + rEnts;
      var rGoal := ents / 2;
      var lGoal := ents - rGoal;
      ShareSlices(rhs, lGoal - lEnts);
      size := lGoal;
      rhs.size := rGoal;
      crit := rhs.keys[0];
      assert crit == rhs.keys[..rGoal][0];
    }

    /** Move the first `n` pairs of `rhs` behind those of this leaf, in the buffers only. */
    method ShareSlices(rhs: LeafNode, n: nat)
      requires Valid() && rhs.Valid() && Repr() !! rhs.Repr()
      requires size + n <= keys.Length && n <= rhs.size
      modifies keys, vals, rhs.keys, rhs.vals
      ensures keys[..size + n] == old(JoinedKeys(rhs))[..size + n]
      ensures rhs.keys[..rhs.size - n] == old(JoinedKeys(rhs))[size + n..]
      ensures vals[..size + n] == old(JoinedVals(rhs))[..size + n]
      ensures rhs.vals[..rhs.size - n] == old(JoinedVals(rhs))[size + n..]
    {
      ShareLeft(keys, size, rhs.keys, rhs.size, n, n);
      ShareLeft(vals, size, rhs.vals, rhs.size, n, n);
    }

    /** Balance an underflowed leaf with its right sibling. */
    method Balance(rhs: LeafNode) returns (newCrit: Option<Key>)
      requires Valid() && rhs.Valid() && Repr() !! rhs.Repr()
      requires keys.Length == rhs.keys.Length && 2 * size < keys.Length
      modifies Repr(), rhs.Repr()
      ensures Valid() && rhs.Valid()
      ensures LeavesBalanced(keys.Length, old(View()), old(rhs.View()), View(), rhs.View(), newCrit)
    {
      if size + rhs.size <= rhs.vals.Length {
        MergeInto(rhs);
        newCrit := None;
      } else {
        var crit := ShareWith(rhs);
        newCrit := Some(crit);
      }
    }
  }
}
