/** A cursor: the nodes and entry numbers from the root of a tree down to a leaf. */
module BForestPath {
  import opened Prelude
  import opened BForestLevels
  import opened BForestPool
  import opened BForestPathTheory
  import opened BForestOrder

  class Path {
    var size: nat
    const node: array<Node>
    const entry: array<nat>
    /** `pos[l]` is the index in level `l` of the visited node; `pos[size]` is the index of the current entry. */
    ghost var pos: seq<nat>

    ghost predicate Valid()
      reads this
    {
      node.Length == entry.Length == MAX_PATH && node != entry && |pos| == MAX_PATH + 1
    }

    ghost function Repr(): set<object> {
      {this, node, entry}
    }

    /** The path visits a node on each of the first `n` levels. */
    ghost predicate At(view: View, L: seq<Level>, n: nat)
      reads this, node, entry
    {
      Valid() && PathTo(view, L, node[..], entry[..], pos, n)
    }

    constructor ()
      ensures Valid() && fresh(Repr()) && size == 0
    {
      size := 0;
      node := new Node[MAX_PATH](_ => 0);
      entry := new nat[MAX_PATH](_ => 0);
      pos := seq(MAX_PATH + 1, _ => 0);
    }

    /** A copy of a path. */
    constructor Copy(other: Path)
      requires other.Valid()
      ensures Valid() && fresh(Repr())
      ensures size == other.size && node[..] == other.node[..] && entry[..] == other.entry[..] && pos == other.pos
    {
      size := other.size;
      node := new Node[MAX_PATH](i requires 0 <= i < other.node.Length reads other.node => other.node[i]);
      entry := new nat[MAX_PATH](i requires 0 <= i < other.entry.Length reads other.entry => other.entry[i]);
      pos := other.pos;
    }

    /** Take over the position of another path. */
    method Assign(other: Path)
      requires Valid() && other.Valid() && Repr() !! other.Repr()
      modifies this, node, entry
      ensures Valid()
      ensures size == other.size && node[..] == other.node[..] && entry[..] == other.entry[..] && pos == other.pos
    {
      size := other.size;
      forall i | 0 <= i < MAX_PATH { node[i] := other.node[i]; }
      forall i | 0 <= i < MAX_PATH { entry[i] := other.entry[i]; }
      pos := other.pos;
    }

    /** The deepest level above `level` where the path could turn right. */
    method RightSiblingBranchLevel(level: nat, pool: NodePool, ghost L: seq<Level>) returns (bl: Option<nat>)
      requires pool.Valid() && level < MAX_PATH && At(pool.view, L, level + 1) && UpperOk(pool.view, L, pool.leafCap, level)
      ensures bl.None? ==> pos[level] + 1 == |L[level]|
      ensures bl.Some? ==>
        && bl.value < level && pos[level] + 1 < |L[level]|
        && entry[bl.value] + 1 < EntriesAt(pool.view, L, pos, bl.value)
        && forall l :: bl.value < l < level ==> entry[l] + 1 == EntriesAt(pool.view, L, pos, l)
    {
      hide Expand, KidsOf, Offset;
      var l := level;
      assert OnNode(L, node[..], pos, level);
      while l > 0
        invariant 0 <= l <= level
        invariant forall k :: l <= k < level ==> entry[k] + 1 == EntriesAt(pool.view, L, pos, k)
        invariant pos[l] < |L[l]|
        invariant pos[level] + 1 < |L[level]| <==> pos[l] + 1 < |L[l]|
        invariant pos[level] + 1 <= |L[level]|
      {
        l := l - 1;
        VisitedInner(pool.view, L, pool.leafCap, node[..], entry[..], pos, level + 1, l);
        RightNeighbour(pool.view, L, pool.leafCap, entry[..], pos, l);
        if entry[l] < pool.Entries(node[l]) - 1 {
          return Some(l);
        }
      }
      return None;
    }

    /** The deepest level above `level` where the path could turn left. */
    method LeftSiblingBranchLevel(level: nat, ghost view: View, ghost L: seq<Level>, ghost leafCap: nat) returns (bl: Option<nat>)
      requires level < MAX_PATH && At(view, L, level + 1) && UpperOk(view, L, leafCap, level)
      ensures pos[level] < |L[level]| && L[level][pos[level]].Sub?
      ensures bl.None? ==>
        && pos[level] == 0 && L[level][0].ck == None
        && forall l :: 0 <= l < level ==> entry[l] == 0 && pos[l] == 0
      ensures bl.Some? ==>
        && bl.value < level && 0 < pos[level]
        && 0 < entry[bl.value] < EntriesAt(view, L, pos, bl.value)
        && node[bl.value] < |view| && WellFormed(view[node[bl.value]], false)
        && EntriesAt(view, L, pos, bl.value) == |view[node[bl.value]].tree|
        && L[level][pos[level]].ck == Some(view[node[bl.value]].keys[entry[bl.value] - 1])
        && forall l :: bl.value < l < level ==> entry[l] == 0
    {
      hide Expand, KidsOf, Offset;
      var l := level;
      assert OnNode(L, node[..], pos, level);
      while l > 0
        invariant 0 <= l <= level
        invariant forall k :: l <= k < level ==> entry[k] == 0
        invariant pos[l] < |L[l]| && L[l][pos[l]].Sub?
        invariant forall k :: l < k <= level ==> (pos[k] == 0 <==> pos[l] == 0)
        invariant L[level][pos[level]].ck == L[l][pos[l]].ck
      {
        l := l - 1;
        VisitedInner(view, L, leafCap, node[..], entry[..], pos, level + 1, l);
        InnerKids(view, L[l][pos[l]], INNER_SIZE);
        Below(view, L, entry[..], pos, l);
        LeftNeighbour(view, L, leafCap, entry[..], pos, l);
        if entry[l] != 0 {
          return Some(l);
        }
      }
      return None;
    }

    /** The critical key and the node to the right of the current node at `level`. */
    method RightSibling(level: nat, pool: NodePool, ghost L: seq<Level>) returns (r: Option<(Key, Node)>)
      requires pool.Valid() && level < MAX_PATH && At(pool.view, L, level + 1) && UpperOk(pool.view, L, pool.leafCap, level)
      ensures pos[level] < |L[level]|
      ensures r.None? ==> pos[level] + 1 == |L[level]|
      ensures r.Some? ==> pos[level] + 1 < |L[level]| && L[level][pos[level] + 1] == Sub(Some(r.value.0), r.value.1)
    {
      hide Expand, KidsOf, Offset;
      assert OnNode(L, node[..], pos, level);
      var bl := RightSiblingBranchLevel(level, pool, L);
      if bl.None? {
        return None;
      }
      var b := bl.value;
      VisitedInner(pool.view, L, pool.leafCap, node[..], entry[..], pos, level + 1, b);
      InnerKids(pool.view, L[b][pos[b]], INNER_SIZE);
      RightNeighbour(pool.view, L, pool.leafCap, entry[..], pos, b);
      var be := entry[b];
      var critKey := pool.InnerKey(node[b], be);
      var n := pool.Child(node[b], be + 1);
      for l := b + 1 to level
        invariant pos[l] + 1 < |L[l]| && L[l][pos[l] + 1] == Sub(Some(critKey), n)
      {
        VisitedInner(pool.view, L, pool.leafCap, node[..], entry[..], pos, level + 1, l);
        RightNeighbour(pool.view, L, pool.leafCap, entry[..], pos, l);
        assert NodeOk(pool.view, L[l][pos[l] + 1], false, INNER_SIZE);
        InnerKids(pool.view, L[l][pos[l] + 1], INNER_SIZE);
        n := pool.Child(n, 0);
      }
      return Some((critKey, n));
    }

    /** The critical key of the current node at `level`; the left-most node has none. */
    method CurrentCritKey(level: nat, pool: NodePool, ghost L: seq<Level>) returns (ck: Option<Key>)
      requires pool.Valid() && level < MAX_PATH && At(pool.view, L, level + 1) && UpperOk(pool.view, L, pool.leafCap, level)
      ensures pos[level] < |L[level]| && L[level][pos[level]].Sub? && ck == L[level][pos[level]].ck
      ensures ck.None? <==> pos[level] == 0
    {
      var bl := LeftSiblingBranchLevel(level, pool.view, L, pool.leafCap);
      match bl
      case None => return None;
      case Some(b) =>
        ck := Some(pool.InnerKey(node[b], entry[b] - 1));
    }

    /** `n` is the child that the path takes from level `l - 1`, at index `q` of level `l`. */
    ghost predicate Leads(view: View, L: seq<Level>, l: nat, n: Node, q: nat)
      reads this, node, entry
    {
      && Valid() && 0 < l < |L| && l < MAX_PATH
      && pos[l - 1] < |L[l - 1]|
      && entry[l - 1] < |KidsOf(view, L[l - 1][pos[l - 1]])|
      && q == Offset(view, L[l - 1], pos[l - 1]) + entry[l - 1]
      && KidsOf(view, L[l - 1][pos[l - 1]])[entry[l - 1]].Sub?
      && n == KidsOf(view, L[l - 1][pos[l - 1]])[entry[l - 1]].id
    }

    /** Visit node `n` on level `l`, at its entry `e`. */
    method Visit(l: nat, n: Node, e: nat, ghost q: nat, ghost view: View, ghost L: seq<Level>)
      requires At(view, L, l) && Leads(view, L, l, n, q) && Linked(view, L, l - 1) && l + 1 < |L|
      modifies this`pos, node, entry
      ensures At(view, L, l + 1) && pos == old(pos)[l := q]
      ensures node[..] == old(node[..])[l := n] && entry[..] == old(entry[..])[l := e]
    {
      hide Expand, KidsOf, Offset;
      ghost var node0, entry0, pos0 := node[..], entry[..], pos;
      node[l] := n;
      entry[l] := e;
      pos := pos[l := q];
      PathFrame(view, L, node0, entry0, pos0, node[..], entry[..], pos, l);
      PathExtend(view, L, node[..], entry[..], pos, l);
    }

    /** Move to the first entry of the next node at `level`; without one, go off the end. */
    method NextNode(level: nat, pool: NodePool, ghost L: seq<Level>) returns (r: Option<Node>)
      requires pool.Valid() && Repr() !! pool.Repr
      requires level < MAX_PATH && At(pool.view, L, level + 1) && UpperOk(pool.view, L, pool.leafCap, level)
      modifies this, node, entry
      ensures old(pos[level]) < |L[level]|
      ensures old(pos[level]) + 1 == |L[level]| ==>
        && r == None && size == 0
        && node[..] == old(node[..]) && entry[..] == old(entry[..]) && pos == old(pos)
      ensures old(pos[level]) + 1 < |L[level]| ==>
        && At(pool.view, L, level + 1)
        && pos[level] == old(pos[level]) + 1 && L[level][pos[level]].Sub? && r == Some(L[level][pos[level]].id)
        && entry[level] == 0 && size == old(size) && node[0] == old(node[0])
        && (forall l :: level < l < MAX_PATH ==> node[l] == old(node[l]) && entry[l] == old(entry[l]))
        && (forall l :: level < l <= MAX_PATH ==> pos[l] == old(pos[l]))
    {
      hide Expand, KidsOf, Offset;
      assert OnNode(L, node[..], pos, level);
      var branch := RightSiblingBranchLevel(level, pool, L);
      if branch.None? {
        size := 0;
        return None;
      }
      var bl := branch.value;
      ghost var node0, entry0, pos0 := node[..], entry[..], pos;
      RightChain(pool.view, L, pool.leafCap, node0, entry0, pos0, bl, level);
      VisitedInner(pool.view, L, pool.leafCap, node0, entry0, pos0, level + 1, bl);
      InnerKids(pool.view, L[bl][pos[bl]], INNER_SIZE);
      PathShorten(pool.view, L, node0, entry0, pos0, level + 1, bl + 1);
      entry[bl] := entry[bl] + 1;
      PathFrame(pool.view, L, node0, entry0, pos0, node[..], entry[..], pos, bl + 1);
      var n := DescendFirst(bl, level, pool, L, pos0);
      r := Some(n);
    }

    /** Follow the current entry of level `bl` and then the left-most links down to `level`. */
    method DescendFirst(bl: nat, level: nat, pool: NodePool, ghost L: seq<Level>, ghost pos0: seq<nat>) returns (n: Node)
      requires pool.Valid() && Repr() !! pool.Repr
      requires bl < level < MAX_PATH && level + 1 < |L| && At(pool.view, L, bl + 1) && UpperOk(pool.view, L, pool.leafCap, level)
      requires pos == pos0 && pos[bl] < |L[bl]| && 0 < entry[bl] < EntriesAt(pool.view, L, pos, bl)
      requires pos[bl + 1] + 1 == Offset(pool.view, L[bl], pos[bl]) + entry[bl]
      requires forall l :: bl < l < level ==> RightFirst(pool.view, L, pos, l)
      modifies this`pos, node, entry
      ensures At(pool.view, L, level + 1)
      ensures pos[level] == pos0[level] + 1 && pos[level] < |L[level]| && L[level][pos[level]].Sub? && n == L[level][pos[level]].id
      ensures entry[level] == 0 && node[0] == old(node[0])
      ensures forall l :: level < l < MAX_PATH ==> node[l] == old(node[l]) && entry[l] == old(entry[l])
      ensures forall l :: level < l <= MAX_PATH ==> pos[l] == pos0[l]
    {
      hide Expand, KidsOf, Offset;
      ghost var view := pool.view;
      VisitedInnerLast(view, L, pool.leafCap, node[..], entry[..], pos, bl);
      InnerKids(view, L[bl][pos[bl]], INNER_SIZE);
      n := pool.Child(node[bl], entry[bl]);
      for l := bl + 1 to level
        invariant At(view, L, l) && Leads(view, L, l, n, pos0[l] + 1)
        invariant node[0] == old(node[0])
        invariant forall k :: l <= k < MAX_PATH ==> node[k] == old(node[k]) && entry[k] == old(entry[k])
        invariant forall k :: l <= k <= MAX_PATH ==> pos[k] == pos0[k]
      {
        assert RightFirst(view, L, pos0, l) && NodeLevel(view, L, pool.leafCap, l - 1);
        Visit(l, n, 0, pos0[l] + 1, view, L);
        assert OnNode(L, node[..], pos, l);
        InnerKids(view, L[l][pos[l]], INNER_SIZE);
        n := pool.Child(n, 0);
      }
      assert NodeLevel(view, L, pool.leafCap, level - 1);
      Visit(level, n, 0, pos0[level] + 1, view, L);
      assert OnNode(L, node[..], pos, level);
    }

    // ---------------------------------------------------------------- positions in a whole tree

    /** The path points at entry `pos[size]` of the tree, or just behind the last entry of a leaf. */
    ghost predicate AtCursor(view: View, L: seq<Level>)
      reads this, node, entry
    {
      && |L| >= 2 && size == |L| - 1 && At(view, L, size)
      && entry[size - 1] <= EntriesAt(view, L, pos, size - 1)
      && pos[size - 1] < |L[size - 1]|
      && pos[size] == Offset(view, L[size - 1], pos[size - 1]) + entry[size - 1]
    }

    /** The path points at the existing entry `pos[size]`. */
    ghost predicate OnEntry(view: View, L: seq<Level>)
      reads this, node, entry
    {
      AtCursor(view, L) && entry[size - 1] < EntriesAt(view, L, pos, size - 1)
    }

    /** The path takes the first entry on every level. */
    ghost predicate AtFirst()
      reads this, entry
    {
      Valid() && size <= MAX_PATH && forall l :: 0 <= l < size ==> entry[l] == 0
    }

    /** `Visit` for the root, which no entry leads to. */
    method VisitRoot(root: Node, e: nat, ghost view: View, ghost L: seq<Level>)
      requires Valid() && |L| >= 2 && L[0] == [Sub(None, root)]
      modifies this`pos, node, entry
      ensures At(view, L, 1) && pos == old(pos)[0 := 0]
      ensures node[..] == old(node[..])[0 := root] && entry[..] == old(entry[..])[0 := e]
    {
      node[0] := root;
      entry[0] := e;
      pos := pos[0 := 0];
      assert OnNode(L, node[..], pos, 0);
    }

    /** One step of a descent: the node at index `q` of level `l`, reached by the path above. */
    ghost predicate Descent(view: View, L: seq<Level>, l: nat, n: Node, q: nat)
      reads this, node, entry
    {
      && Valid() && l + 1 < |L| && l < MAX_PATH
      && (if l == 0 then q == 0 && L[0] == [Sub(None, n)] else At(view, L, l) && Leads(view, L, l, n, q))
      && q < |L[l]| && L[l][q].Sub? && L[l][q].id == n
    }

    /** Enter the node a descent has reached, at entry `e`. */
    method Enter(l: nat, n: Node, e: nat, ghost q: nat, ghost view: View, ghost L: seq<Level>)
      requires Descent(view, L, l, n, q) && (l > 0 ==> Linked(view, L, l - 1))
      modifies this`size, this`pos, node, entry
      ensures size == l + 1 && At(view, L, l + 1) && pos == old(pos)[l := q]
      ensures node[..] == old(node[..])[l := n] && entry[..] == old(entry[..])[l := e]
    {
      size := l + 1;
      if l == 0 {
        VisitRoot(n, e, view, L);
      } else {
        Visit(l, n, e, q, view, L);
      }
    }

    /** The child at the current entry of an inner node continues the descent. */
    lemma Continue(view: View, L: seq<Level>, leafCap: nat, l: nat)
      requires At(view, L, l + 1) && l + 2 < |L| && l + 1 < MAX_PATH
      requires NodeLevel(view, L, leafCap, l)
      requires entry[l] < EntriesAt(view, L, pos, l)
      ensures pos[l] < |L[l]| && node[l] < |view| && WellFormed(view[node[l]], false) && entry[l] < |view[node[l]].tree|
      ensures Descent(view, L, l + 1, view[node[l]].tree[entry[l]], Offset(view, L[l], pos[l]) + entry[l])
    {
      hide Expand, KidsOf;
      assert OnNode(L, node[..], pos, l);
      assert NodeOk(view, L[l][pos[l]], false, INNER_SIZE);
      InnerKids(view, L[l][pos[l]], INNER_SIZE);
      KidAt(view, L[l], pos[l], entry[l]);
    }

    /**
     * Search for `key`.  The path is left at the entry when there is one, and otherwise at the
     * position where the key belongs, behind the last entry of a leaf rather than before the
     * first entry of the next one.
     */
    method Find(key: Key, root: Node, pool: NodePool, ghost L: seq<Level>) returns (r: Option<Value>)
      requires Valid() && pool.Valid() && Repr() !! pool.Repr
      requires TreeOk(pool.view, L, pool.leafCap, root) && |L| <= MAX_PATH + 1
      modifies this, node, entry
      ensures AtCursor(pool.view, L) && node[0] == root && pos[size] <= |L[size]|
      ensures r.Some? ==> OnEntry(pool.view, L) && pos[size] < |L[size]| && L[size][pos[size]] == Entry(key, r.value)
      ensures r.None? ==>
        && (pos[size] > 0 ==> L[size][pos[size] - 1].Entry? && L[size][pos[size] - 1].key < key)
        && (pos[size] < |L[size]| ==> L[size][pos[size]].Entry? && key < L[size][pos[size]].key)
        && (entry[size - 1] == 0 ==> AtFirst())
    {
      RootLive(pool.view, L, pool.leafCap, root);
      var n: Node := root;
      var level: nat := 0;
      ghost var q: nat := 0;
      while pool.IsInner(n)
        invariant Seeking(pool.view, L, level, n, q, key, root)
        decreases |L| - level
      {
        hide Bracket, Descent;
        n, q := FindInInner(level, n, key, root, pool, L, q);
        level := level + 1;
      }
      r := FindInLeaf(level, n, key, root, pool, L, q);
    }

    /** A search for `key` has come down to node `n`, at index `q` of level `l`. */
    ghost predicate Seeking(view: View, L: seq<Level>, l: nat, n: Node, q: nat, key: Key, root: Node)
      reads this, node, entry
    {
      && Descent(view, L, l, n, q) && Bracket(L, l, q, key) && n < |view|
      && (if l == 0 then n == root else node[0] == root)
      && (L[l][q].ck == None ==> forall k :: 0 <= k < l ==> entry[k] == 0)
    }

    /** What a descent knows about the node it has reached. */
    lemma SeekFacts(view: View, L: seq<Level>, leafCap: nat, root: Node, l: nat, q: nat, leaf: bool)
      requires TreeOk(view, L, leafCap, root) && l + 1 < |L| && q < |L[l]| && L[l][q].Sub? && L[l][q].id < |view|
      requires leaf == !view[L[l][q].id].Inner?
      ensures |L| >= 2 && leaf == (l + 2 == |L|) && NodeLevel(view, L, leafCap, l) && (l > 0 ==> NodeLevel(view, L, leafCap, l - 1))
      ensures l + 2 < |L| ==> NodeLevel(view, L, leafCap, l + 1)
      ensures NodeOk(view, L[l][q], leaf, CapAt(leaf, leafCap)) && Ascending(view[L[l][q].id].keys)
    {
      hide Expand, KidsOf, Sorted, Distinct;
      NodeKeysSorted(view, L, leafCap, root, l, q);
      assert NodeLevel(view, L, leafCap, l);
      assert NodeOk(view, L[l][q], l + 2 == |L|, CapAt(l + 2 == |L|, leafCap));
      if l > 0 { assert NodeLevel(view, L, leafCap, l - 1); }
      if l + 2 < |L| { assert NodeLevel(view, L, leafCap, l + 1); }
    }

    method FindInInner(level: nat, n: Node, key: Key, root: Node, pool: NodePool, ghost L: seq<Level>, ghost q: nat)
      returns (n': Node, ghost q': nat)
      requires pool.Valid() && Repr() !! pool.Repr
      requires TreeOk(pool.view, L, pool.leafCap, root) && |L| <= MAX_PATH + 1
      requires Seeking(pool.view, L, level, n, q, key, root) && pool.view[n].Inner?
      modifies this`size, this`pos, node, entry
      ensures level + 2 < |L| && Seeking(pool.view, L, level + 1, n', q', key, root)
    {
      hide Expand, KidsOf, Offset, NodePool.Valid, TreeOk;
      ghost var view, leafCap := pool.view, pool.leafCap;
      SeekFacts(view, L, leafCap, root, level, q, false);
      InnerKids(view, L[level][q], INNER_SIZE);
      var found, i := pool.Search(n, key);
      var e := if found then i + 1 else i;
      Enter(level, n, e, q, view, L);
      n' := pool.Child(n, e);
      q' := Offset(view, L[level], q) + e;
      FindStep(view, L, leafCap, level, key, q');
      Continue(view, L, leafCap, level);
      assert NodeLevel(view, L, leafCap, level + 1) && NodeOk(view, L[level + 1][q'], level + 3 == |L|, CapAt(level + 3 == |L|, leafCap));
    }

    method FindInLeaf(level: nat, n: Node, key: Key, root: Node, pool: NodePool, ghost L: seq<Level>, ghost q: nat)
      returns (r: Option<Value>)
      requires pool.Valid() && Repr() !! pool.Repr
      requires TreeOk(pool.view, L, pool.leafCap, root) && |L| <= MAX_PATH + 1
      requires Seeking(pool.view, L, level, n, q, key, root) && !pool.view[n].Inner?
      modifies this`size, this`pos, node, entry
      ensures AtCursor(pool.view, L) && node[0] == root && pos[size] <= |L[size]|
      ensures r.Some? ==> OnEntry(pool.view, L) && pos[size] < |L[size]| && L[size][pos[size]] == Entry(key, r.value)
      ensures r.None? ==>
        && (pos[size] > 0 ==> L[size][pos[size] - 1].Entry? && L[size][pos[size] - 1].key < key)
        && (pos[size] < |L[size]| ==> L[size][pos[size]].Entry? && key < L[size][pos[size]].key)
        && (entry[size - 1] == 0 ==> AtFirst())
    {
      hide Expand, KidsOf, Offset, NodePool.Valid, TreeOk;
      ghost var view, leafCap := pool.view, pool.leafCap;
      SeekFacts(view, L, leafCap, root, level, q, true);
      LeafKids(view, L[level][q], leafCap);
      var found, i := pool.Search(n, key);
      EnterLeaf(level, n, i, q, view, L);
      OffsetStep(view, L[level], q);
      if found {
        KidAt(view, L[level], q, i);
        return Some(pool.LeafVal(n, i));
      }
      BracketLeaf(view, L, leafCap, q, i, key);
      if i == 0 {
        FrontOfTree(view, L, leafCap, root, node[..], entry[..], pos);
      }
      return None;
    }

    /** Enter the leaf a descent has reached, at its entry `e` or behind its last one. */
    method EnterLeaf(level: nat, n: Node, e: nat, ghost q: nat, ghost view: View, ghost L: seq<Level>)
      requires Descent(view, L, level, n, q) && level + 2 == |L| && (level > 0 ==> Linked(view, L, level - 1))
      requires e <= |KidsOf(view, L[level][q])|
      modifies this`size, this`pos, node, entry
      ensures AtCursor(view, L) && size == level + 1 && pos == old(pos)[level := q][level + 1 := Offset(view, L[level], q) + e]
      ensures node[..] == old(node[..])[level := n] && entry[..] == old(entry[..])[level := e]
    {
      hide Expand, KidsOf, Offset;
      Enter(level, n, e, q, view, L);
      ghost var pos0 := pos;
      pos := pos[level + 1 := Offset(view, L[level], q) + e];
      PathFrame(view, L, node[..], entry[..], pos0, node[..], entry[..], pos, level + 1);
    }

    /** The bracket moves down with the descent, and only the left-most child has no critical key. */
    lemma FindStep(view: View, L: seq<Level>, leafCap: nat, l: nat, key: Key, q: nat)
      requires At(view, L, l + 1) && l + 2 < |L| && l + 1 < MAX_PATH
      requires NodeLevel(view, L, leafCap, l)
      requires Bracket(L, l, pos[l], key) && NodeOk(view, L[l][pos[l]], false, INNER_SIZE)
      requires node[l] == L[l][pos[l]].id && entry[l] <= |view[node[l]].keys|
      requires entry[l] > 0 ==> view[node[l]].keys[entry[l] - 1] <= key
      requires entry[l] < |view[node[l]].keys| ==> key < view[node[l]].keys[entry[l]]
      requires q == Offset(view, L[l], pos[l]) + entry[l]
      ensures Bracket(L, l + 1, q, key) && (L[l + 1][q].ck == None ==> entry[l] == 0 && L[l][pos[l]].ck == None)
    {
      hide Expand, KidsOf, Offset;
      InnerKids(view, L[l][pos[l]], INNER_SIZE);
      var pos' := pos[l + 1 := q];
      assert Link(view, L, entry[..], pos', l);
      BracketDown(view, L, leafCap, entry[..], pos', l, key);
      Below(view, L, entry[..], pos', l);
    }

    /** The pair at the current entry. */
    method Current(pool: NodePool, ghost L: seq<Level>, ghost root: Node) returns (key: Key, value: Value)
      requires pool.Valid() && TreeOk(pool.view, L, pool.leafCap, root) && OnEntry(pool.view, L)
      ensures pos[size] < |L[size]| && L[size][pos[size]] == Entry(key, value)
    {
      hide Expand, KidsOf, Offset;
      ghost var l: nat := size - 1;
      assert NodeLevel(pool.view, L, pool.leafCap, l) && OnNode(L, node[..], pos, l);
      assert NodeOk(pool.view, L[l][pos[l]], true, pool.leafCap);
      LeafKids(pool.view, L[l][pos[l]], pool.leafCap);
      KidAt(pool.view, L[l], pos[l], entry[l]);
      key := pool.LeafKey(node[size - 1], entry[size - 1]);
      value := pool.LeafVal(node[size - 1], entry[size - 1]);
    }

    /** Facts about the node a descent stands on. */
    lemma Standing(view: View, L: seq<Level>, leafCap: nat, root: Node, level: nat, n: Node, q: nat)
      requires TreeOk(view, L, leafCap, root) && Descent(view, L, level, n, q)
      ensures n < |view| && NodeOk(view, L[level][q], level + 2 == |L|, CapAt(level + 2 == |L|, leafCap))
      ensures NodeLevel(view, L, leafCap, level) && (level > 0 ==> Linked(view, L, level - 1))
      ensures WellFormed(view[n], level + 2 == |L|) && |KidsOf(view, L[level][q])| == if level + 2 == |L| then |view[n].keys| else |view[n].tree|
    {
      assert NodeLevel(view, L, leafCap, level) && (level > 0 ==> NodeLevel(view, L, leafCap, level - 1));
      assert NodeOk(view, L[level][q], level + 2 == |L|, CapAt(level + 2 == |L|, leafCap));
    }

    /** Move to the first entry of the tree and return it. */
    method First(root: Node, pool: NodePool, ghost L: seq<Level>) returns (key: Key, value: Value)
      requires Valid() && pool.Valid() && Repr() !! pool.Repr
      requires TreeOk(pool.view, L, pool.leafCap, root) && |L| <= MAX_PATH + 1
      modifies this, node, entry
      ensures OnEntry(pool.view, L) && node[0] == root && pos[size] == 0 && |L[size]| > 0 && L[size][0] == Entry(key, value)
    {
      hide Expand, KidsOf, Offset;
      ghost var view, leafCap := pool.view, pool.leafCap;
      RootLive(view, L, leafCap, root);
      var n: Node := root;
      var level: nat := 0;
      ghost var q: nat := 0;
      while pool.IsInner(n)
        invariant Descent(view, L, level, n, q) && n < |view|
        invariant level == 0 ==> n == root
        invariant level > 0 ==> node[0] == root
        invariant forall k :: 0 <= k < level ==> entry[k] == 0
        decreases |L| - level
      {
        Standing(view, L, leafCap, root, level, n, q);
        n, q := Down(level, n, 0, q, root, pool, L);
        level := level + 1;
      }
      Standing(view, L, leafCap, root, level, n, q);
      EnterLeaf(level, n, 0, q, view, L);
      FrontOfTree(view, L, leafCap, root, node[..], entry[..], pos);
      key, value := Current(pool, L, root);
    }

    /** Enter the inner node a descent stands on at entry `e`, and step down to that child. */
    method Down(level: nat, n: Node, e: nat, ghost q: nat, ghost root: Node, pool: NodePool, ghost L: seq<Level>)
      returns (n': Node, ghost q': nat)
      requires pool.Valid() && Repr() !! pool.Repr
      requires TreeOk(pool.view, L, pool.leafCap, root) && |L| <= MAX_PATH + 1
      requires Descent(pool.view, L, level, n, q) && n < |pool.view| && pool.view[n].Inner? && e < |KidsOf(pool.view, L[level][q])|
      modifies this`size, this`pos, node, entry
      ensures level + 2 < |L| && Descent(pool.view, L, level + 1, n', q') && n' < |pool.view|
      ensures q' == Offset(pool.view, L[level], q) + e
      ensures node[..] == old(node[..])[level := n] && entry[..] == old(entry[..])[level := e]
      ensures pos == old(pos)[level := q]
    {
      hide Expand, KidsOf, Offset;
      Standing(pool.view, L, pool.leafCap, root, level, n, q);
      Enter(level, n, e, q, pool.view, L);
      Continue(pool.view, L, pool.leafCap, level);
      n' := pool.Child(n, e);
      q' := Offset(pool.view, L[level], q) + e;
      Standing(pool.view, L, pool.leafCap, root, level + 1, n', q');
    }

    /** Move to the last position of the sub-tree below node `n`, at index `q` of `level`. */
    method GotoSubtreeLast(level: nat, n: Node, ghost q: nat, ghost root: Node, pool: NodePool, ghost L: seq<Level>)
      requires Valid() && pool.Valid() && Repr() !! pool.Repr
      requires TreeOk(pool.view, L, pool.leafCap, root) && |L| <= MAX_PATH + 1
      requires Descent(pool.view, L, level, n, q)
      modifies this`size, this`pos, node, entry
      ensures OnEntry(pool.view, L) && pos[level] == q
      ensures level > 0 ==> node[0] == old(node[0])
      ensures level == 0 ==> node[0] == n
      ensures forall k :: level <= k < |L| - 1 ==> LastChild(pool.view, L, pos, k)
    {
      hide Expand, KidsOf, Offset;
      var n': Node, l: nat := n, level;
      ghost var q': nat := q;
      Standing(pool.view, L, pool.leafCap, root, level, n, q);
      while pool.IsInner(n')
        invariant Rightward(pool.view, L, level, n, q, l, n', q')
        invariant l > 0 && level > 0 ==> node[0] == old(node[0])
        decreases |L| - l
      {
        n', q' := DownLast(level, n, q, l, n', q', root, pool, L);
        l := l + 1;
      }
      EnterLast(level, n, q, l, n', q', root, pool, L);
    }

    method EnterLast(ghost level: nat, ghost n: Node, ghost q: nat, l: nat, n1: Node, ghost q1: nat,
                     ghost root: Node, pool: NodePool, ghost L: seq<Level>)
      requires pool.Valid() && Repr() !! pool.Repr
      requires TreeOk(pool.view, L, pool.leafCap, root)
      requires Rightward(pool.view, L, level, n, q, l, n1, q1) && !pool.view[n1].Inner?
      modifies this`size, this`pos, node, entry
      ensures OnEntry(pool.view, L) && pos[level] == q
      ensures node[0] == if l > 0 then old(node[0]) else n1
      ensures forall k :: level <= k < |L| - 1 ==> LastChild(pool.view, L, pos, k)
    {
      hide Expand, KidsOf, Offset;
      ghost var pos0 := pos;
      Standing(pool.view, L, pool.leafCap, root, l, n1, q1);
      OffsetStep(pool.view, L[l], q1);
      EnterLeaf(l, n1, pool.Entries(n1) - 1, q1, pool.view, L);
      forall k | level <= k <= l ensures LastChild(pool.view, L, pos, k) {
        if k < l - 1 { assert LastChild(pool.view, L, pos0, k) && pos[k] == pos0[k] && pos[k + 1] == pos0[k + 1]; }
      }
    }

    /** A descent from node `n` at index `q` of `level` to `n'` at index `q'` of level `l`, along last children. */
    ghost predicate Rightward(view: View, L: seq<Level>, level: nat, n: Node, q: nat, l: nat, n': Node, q': nat)
      reads this, node, entry
    {
      && level <= l && Descent(view, L, l, n', q') && n' < |view|
      && (if l == level then n' == n && q' == q else pos[level] == q)
      && (l > level ==> (level == 0 ==> node[0] == n) && pos[l - 1] < |L[l - 1]| && q' + 1 == Offset(view, L[l - 1], pos[l - 1] + 1))
      && forall k :: level <= k < l - 1 ==> LastChild(view, L, pos, k)
    }

    method DownLast(ghost level: nat, ghost n: Node, ghost q: nat, l: nat, n1: Node, ghost q1: nat,
                    ghost root: Node, pool: NodePool, ghost L: seq<Level>)
      returns (n': Node, ghost q': nat)
      requires pool.Valid() && Repr() !! pool.Repr
      requires TreeOk(pool.view, L, pool.leafCap, root) && |L| <= MAX_PATH + 1
      requires Rightward(pool.view, L, level, n, q, l, n1, q1) && pool.view[n1].Inner?
      modifies this`size, this`pos, node, entry
      ensures Rightward(pool.view, L, level, n, q, l + 1, n', q')
      ensures l > 0 ==> node[0] == old(node[0])
    {
      hide Expand, KidsOf, Offset;
      Standing(pool.view, L, pool.leafCap, root, l, n1, q1);
      OffsetStep(pool.view, L[l], q1);
      n', q' := Down(l, n1, pool.Entries(n1) - 1, q1, root, pool, L);
      forall k | level <= k < l ensures LastChild(pool.view, L, pos, k) {
        if k < l - 1 { assert LastChild(pool.view, L, old(pos), k); }
      }
    }

    /** What is known about the leaf under the cursor. */
    lemma AtLeaf(view: View, L: seq<Level>, leafCap: nat, root: Node)
      requires TreeOk(view, L, leafCap, root) && AtCursor(view, L)
      ensures node[size - 1] < |view| && WellFormed(view[node[size - 1]], true)
      ensures EntriesAt(view, L, pos, size - 1) == |view[node[size - 1]].keys|
      ensures pos[size - 1] < |L[size - 1]| && L[size - 1][pos[size - 1]].Sub? && L[size - 1][pos[size - 1]].id == node[size - 1]
      ensures NodeOk(view, L[size - 1][pos[size - 1]], true, leafCap) && UpperOk(view, L, leafCap, size - 1)
      ensures pos[size] <= |L[size]|
      ensures entry[size - 1] == EntriesAt(view, L, pos, size - 1) ==> pos[size] == Offset(view, L[size - 1], pos[size - 1] + 1)
      ensures entry[size - 1] < EntriesAt(view, L, pos, size - 1) <==> OnEntry(view, L)
      ensures OnEntry(view, L) ==> pos[size] < |L[size]|
    {
      hide Expand, KidsOf;
      var l: nat := size - 1;
      RootLive(view, L, leafCap, root);
      assert NodeLevel(view, L, leafCap, l) && OnNode(L, node[..], pos, l);
      assert NodeOk(view, L[l][pos[l]], true, leafCap);
      LeafKids(view, L[l][pos[l]], leafCap);
      OffsetStep(view, L[l], pos[l]);
    }

    /** Step to the first entry of the next leaf, or off the end. */
    method NextLeaf(pool: NodePool, ghost L: seq<Level>, ghost root: Node) returns (r: Option<Node>)
      requires pool.Valid() && Repr() !! pool.Repr
      requires TreeOk(pool.view, L, pool.leafCap, root) && AtCursor(pool.view, L)
      modifies this, node, entry
      ensures node[0] == old(node[0]) && Valid()
      ensures var q := Offset(pool.view, L[old(size) - 1], old(pos[size - 1]) + 1);
        && (q == |L[|L| - 1]| ==> r == None && size == 0)
        && (q < |L[|L| - 1]| ==> r.Some? && OnEntry(pool.view, L) && pos[size] == q)
    {
      hide Expand, KidsOf;
      AtLeaf(pool.view, L, pool.leafCap, root);
      var level := size - 1;
      ghost var p := pos[level];
      assert NodeLevel(pool.view, L, pool.leafCap, level);
      OffsetStep(pool.view, L[level], p);
      r := NextNode(level, pool, L);
      if r.Some? {
        assert OnNode(L, node[..], pos, level) && NodeOk(pool.view, L[level][p + 1], true, pool.leafCap);
        KidAt(pool.view, L[level], p + 1, 0);
        ghost var pos0 := pos;
        pos := pos[level + 1 := Offset(pool.view, L[level], p + 1)];
        PathFrame(pool.view, L, node[..], entry[..], pos0, node[..], entry[..], pos, level + 1);
      }
    }

    /** Move to the next pair and return it; `None`, off the end, when there is none. */
    method Next(pool: NodePool, ghost L: seq<Level>, ghost root: Node) returns (r: Option<(Key, Value)>)
      requires Valid() && pool.Valid() && Repr() !! pool.Repr
      requires size > 0 ==> TreeOk(pool.view, L, pool.leafCap, root) && OnEntry(pool.view, L)
      modifies this, node, entry
      ensures Valid() && node[0] == old(node[0])
      ensures old(size) == 0 ==> r == None && size == 0
      ensures old(size) > 0 && old(pos[size]) + 1 < |L[|L| - 1]| ==>
        OnEntry(pool.view, L) && pos[size] == old(pos[size]) + 1 && r.Some? && L[size][pos[size]] == Entry(r.value.0, r.value.1)
      ensures old(size) > 0 && old(pos[size]) + 1 >= |L[|L| - 1]| ==> r == None && size == 0
    {
      hide Expand, KidsOf;
      if size == 0 {
        return None;
      }
      AtLeaf(pool.view, L, pool.leafCap, root);
      OffsetStep(pool.view, L[size - 1], pos[size - 1]);
      assert NodeLevel(pool.view, L, pool.leafCap, size - 1);
      var n, e := node[size - 1], entry[size - 1];
      if e + 1 < pool.Entries(n) {
        Forward(pool.view, L);
      } else {
        var next := NextLeaf(pool, L, root);
        if next.None? {
          return None;
        }
      }
      var k, v := Current(pool, L, root);
      return Some((k, v));
    }

    /** Advance within the current leaf. */
    method Forward(ghost view: View, ghost L: seq<Level>)
      requires AtCursor(view, L) && entry[size - 1] < EntriesAt(view, L, pos, size - 1)
      modifies this`pos, entry
      ensures AtCursor(view, L) && entry[size - 1] == old(entry[size - 1]) + 1 && pos[size] == old(pos[size]) + 1
      ensures pos[size - 1] == old(pos[size - 1])
    {
      hide Expand, KidsOf, Offset;
      ghost var entry0, pos0 := entry[..], pos;
      entry[size - 1] := entry[size - 1] + 1;
      pos := pos[size := pos[size] + 1];
      PathFrame(view, L, node[..], entry0, pos0, node[..], entry[..], pos, size);
    }

    /** Leave the position behind the last entry of a leaf for the next entry, or for the end. */
    method Normalize(pool: NodePool, ghost L: seq<Level>, ghost root: Node)
      requires Valid() && pool.Valid() && Repr() !! pool.Repr
      requires size > 0 ==> TreeOk(pool.view, L, pool.leafCap, root) && AtCursor(pool.view, L)
      modifies this, node, entry
      ensures Valid() && node[0] == old(node[0])
      ensures old(size) == 0 ==> size == 0
      ensures old(size) > 0 && old(pos[size]) < |L[|L| - 1]| ==> OnEntry(pool.view, L) && pos[size] == old(pos[size])
      ensures old(size) > 0 && old(pos[size]) >= |L[|L| - 1]| ==> size == 0
    {
      hide Expand, KidsOf, Offset;
      if size > 0 {
        AtLeaf(pool.view, L, pool.leafCap, root);
        if entry[size - 1] >= pool.Entries(node[size - 1]) {
          var r := NextLeaf(pool, L, root);
        }
      }
    }

    /** Step back within the current leaf. */
    method Backward(ghost view: View, ghost L: seq<Level>)
      requires AtCursor(view, L) && entry[size - 1] > 0
      modifies this`pos, entry
      ensures OnEntry(view, L) && pos[size] == old(pos[size]) - 1
    {
      hide Expand, KidsOf, Offset;
      ghost var entry0, pos0 := entry[..], pos;
      entry[size - 1] := entry[size - 1] - 1;
      pos := pos[size := pos[size] - 1];
      PathFrame(view, L, node[..], entry0, pos0, node[..], entry[..], pos, size);
    }

    /** Take the child to the left at the branching level `bl`. */
    method BranchLeft(bl: nat, pool: NodePool, ghost L: seq<Level>, ghost root: Node) returns (n: Node)
      requires pool.Valid() && Repr() !! pool.Repr
      requires TreeOk(pool.view, L, pool.leafCap, root) && |L| <= MAX_PATH + 1
      requires bl + 2 < |L| && At(pool.view, L, |L| - 1) && 0 < entry[bl] < EntriesAt(pool.view, L, pos, bl)
      modifies entry
      ensures Descent(pool.view, L, bl + 1, n, Offset(pool.view, L[bl], pos[bl]) + entry[bl])
      ensures pos[bl + 1] > 0 && Offset(pool.view, L[bl], pos[bl]) + entry[bl] == pos[bl + 1] - 1
    {
      hide Expand, KidsOf, Offset;
      ghost var view := pool.view;
      RootLive(view, L, pool.leafCap, root);
      VisitedInner(view, L, pool.leafCap, node[..], entry[..], pos, |L| - 1, bl);
      PathShorten(view, L, node[..], entry[..], pos, |L| - 1, bl + 1);
      ghost var entry0 := entry[..];
      entry[bl] := entry[bl] - 1;
      PathFrame(view, L, node[..], entry0, pos, node[..], entry[..], pos, bl + 1);
      Continue(view, L, pool.leafCap, bl);
      n := pool.Child(node[bl], entry[bl]);
    }

    /** From the first entry of a leaf to the last entry of the leaf before it, if there is one. */
    method PrevLeaf(pool: NodePool, ghost L: seq<Level>, ghost root: Node) returns (moved: bool)
      requires pool.Valid() && Repr() !! pool.Repr
      requires TreeOk(pool.view, L, pool.leafCap, root) && |L| <= MAX_PATH + 1
      requires AtCursor(pool.view, L) && entry[size - 1] == 0
      modifies this, node, entry
      ensures node[0] == old(node[0]) && moved == (old(pos[size]) > 0)
      ensures !moved ==> node[..] == old(node[..]) && entry[..] == old(entry[..]) && pos == old(pos) && size == old(size)
      ensures moved ==> OnEntry(pool.view, L) && pos[size] == old(pos[size]) - 1
    {
      hide Expand, KidsOf;
      AtLeaf(pool.view, L, pool.leafCap, root);
      ghost var view, leafCap, pos0 := pool.view, pool.leafCap, pos;
      var branch := LeftSiblingBranchLevel(size - 1, view, L, leafCap);
      if branch.None? {
        FrontOfTree(view, L, leafCap, root, node[..], entry[..], pos);
        return false;
      }
      var bl := branch.value;
      forall k | bl < k < size ensures pos0[k] < |L[k]| && pos0[k + 1] == Offset(view, L[k], pos0[k]) {
        if k < size - 1 { assert Link(view, L, entry[..], pos, k); }
      }
      var n := BranchLeft(bl, pool, L, root);
      GotoSubtreeLast(bl + 1, n, pos0[bl + 1] - 1, root, pool, L);
      LastBeforeFirst(view, L, pos, pos0, bl + 1, size);
      return true;
    }

    /** Move to the previous pair and return it; from off the end, to the last pair. */
    method Prev(root: Node, pool: NodePool, ghost L: seq<Level>) returns (r: Option<(Key, Value)>)
      requires Valid() && pool.Valid() && Repr() !! pool.Repr
      requires TreeOk(pool.view, L, pool.leafCap, root) && |L| <= MAX_PATH + 1
      requires size > 0 ==> AtCursor(pool.view, L)
      modifies this, node, entry
      ensures Valid() && node[0] == if old(size) == 0 then root else old(node[0])
      ensures old(size) > 0 && old(pos[size]) == 0 ==> r == None && AtCursor(pool.view, L) && pos == old(pos) && size == old(size)
      ensures old(size) == 0 || old(pos[size]) > 0 ==>
        && OnEntry(pool.view, L) && r.Some? && pos[size] < |L[size]| && L[size][pos[size]] == Entry(r.value.0, r.value.1)
        && pos[size] == (if old(size) == 0 then |L[size]| else old(pos[size])) - 1
    {
      hide Expand, KidsOf, Offset;
      if size == 0 {
        RootLive(pool.view, L, pool.leafCap, root);
        GotoSubtreeLast(0, root, 0, root, pool, L);
        LastOnly(pool.view, L, pool.leafCap, root, pos, size);
        AtLeaf(pool.view, L, pool.leafCap, root);
      } else if entry[size - 1] > 0 {
        Backward(pool.view, L);
      } else {
        var moved := PrevLeaf(pool, L, root);
        if !moved {
          return None;
        }
      }
      var k, v := Current(pool, L, root);
      return Some((k, v));
    }
  }

  /** A cursor and a pool that do not share memory. */
  ghost predicate Ready(path: Path, pool: NodePool)
    reads path, pool, pool.Repr
  {
    path.Valid() && pool.Valid() && path.Repr() !! pool.Repr
  }
}
