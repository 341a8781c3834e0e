/** Merging an ascending sequence of entries into a map in a single pass from left to right. */
module BForestMerge {
  import opened Prelude
  import opened BForestLevels
  import opened BForestPool
  import opened BForestPathTheory
  import opened BForestPath
  import opened BForestFrame
  import opened BForestInsertTheory
  import opened BForestInsert
  import opened BForestTrees
  import opened BForestModel
  import opened BForestMap
  import opened BForestOps
  import opened BForestIter

  /** The path is on an entry with a key smaller than `key`. */
  ghost predicate Before(path: Path, view: View, L: seq<Level>, key: Key)
    reads path, path.node, path.entry
  {
    && path.OnEntry(view, L) && path.size < |path.pos| && path.pos[path.size] < |L[|L| - 1]|
    && L[|L| - 1][path.pos[path.size]].Entry? && L[|L| - 1][path.pos[path.size]].key < key
  }

  /**
   * Outcome of one step from position `q`: still before `key` (`None`), at the entry of `key`, or at
   * the place where it belongs, in the leaf of the entry before it.
   */
  ghost predicate Stepped(path: Path, view: View, L: seq<Level>, key: Key, q: nat, step: Option<Option<Value>>)
    reads path, path.node, path.entry
  {
    && path.AtCursor(view, L) && path.size < |path.pos| && q < path.pos[path.size] <= |L[|L| - 1]|
    && match step
       case None => Before(path, view, L, key)
       case Some(None) => FitsAt(L[|L| - 1], path.pos[path.size], key) && path.entry[path.size - 1] > 0
       case Some(Some(v)) =>
         path.OnEntry(view, L) && path.pos[path.size] < |L[|L| - 1]| && L[|L| - 1][path.pos[path.size]] == Entry(key, v)
  }

  /** Go on to the next entry of the leaf. */
  method StepInLeaf(path: Path, key: Key, pool: NodePool, ghost L: seq<Level>, ghost root: Node, ghost q: nat)
    returns (step: Option<Option<Value>>)
    requires Ready(path, pool) && TreeOk(pool.view, L, pool.leafCap, root)
    requires Before(path, pool.view, L, key) && path.pos[path.size] == q
    requires path.entry[path.size - 1] + 1 < EntriesAt(pool.view, L, path.pos, path.size - 1)
    modifies path, path.node, path.entry
    ensures Ready(path, pool) && path.node[0] == old(path.node[0]) && Stepped(path, pool.view, L, key, q, step)
  {
    hide TreeOk, Expand, KidsOf, Offset, NodePool.Valid, PathTo;
    path.Forward(pool.view, L);
    path.AtLeaf(pool.view, L, pool.leafCap, root);
    var k, v := path.Current(pool, L, root);
    if k < key {
      return None;
    }
    return Some(if k == key then Some(v) else None);
  }

  /** Go on to the first entry of the next leaf, unless the key belongs before it. */
  method StepToLeaf(path: Path, key: Key, pool: NodePool, ghost L: seq<Level>, ghost root: Node, ghost q: nat)
    returns (step: Option<Option<Value>>)
    requires Ready(path, pool) && TreeOk(pool.view, L, pool.leafCap, root)
    requires Before(path, pool.view, L, key) && path.pos[path.size] == q
    requires path.entry[path.size - 1] + 1 == EntriesAt(pool.view, L, path.pos, path.size - 1)
    modifies path, path.node, path.entry
    ensures Ready(path, pool) && path.node[0] == old(path.node[0]) && Stepped(path, pool.view, L, key, q, step)
  {
    hide TreeOk, Expand, KidsOf, Offset, NodePool.Valid, PathTo;
    path.AtLeaf(pool.view, L, pool.leafCap, root);
    OffsetStep(pool.view, L[path.size - 1], path.pos[path.size - 1]);
    var ahead := new Path.Copy(path);
    var next := ahead.NextLeaf(pool, L, root);
    if next.Some? {
      var k, v := ahead.Current(pool, L, root);
      if k <= key {
        path.Assign(ahead);
        return if k < key then None else Some(Some(v));
      }
    }
    path.Forward(pool.view, L);
    return Some(None);
  }

  /**
   * Move forward from an entry before `key` to the entry of `key`, or else to the place where it
   * belongs.  A path that is off the end stays there.
   */
  method AdvanceToInsertPos(path: Path, key: Key, pool: NodePool, ghost L: seq<Level>, ghost root: Node) returns (r: Option<Value>)
    requires Ready(path, pool)
    requires path.size > 0 ==> TreeOk(pool.view, L, pool.leafCap, root) && Before(path, pool.view, L, key)
    modifies path, path.node, path.entry
    ensures Ready(path, pool) && path.node[0] == old(path.node[0])
    ensures old(path.size) == 0 ==>
      && r == None && path.size == 0
      && path.node[..] == old(path.node[..]) && path.entry[..] == old(path.entry[..]) && path.pos == old(path.pos)
    ensures old(path.size) > 0 ==> old(path.size) < |old(path.pos)| && Stepped(path, pool.view, L, key, old(path.pos[path.size]), Some(r))
  {
    hide TreeOk, Expand, KidsOf, Offset, NodePool.Valid, PathTo, FitsAt;
    if path.size == 0 {
      return None;
    }
    ghost var q0, q := path.pos[path.size], path.pos[path.size];
    while true
      invariant Ready(path, pool) && path.node[0] == old(path.node[0])
      invariant path.size > 0 && Before(path, pool.view, L, key) && q0 <= q == path.pos[path.size]
      decreases |L[|L| - 1]| - q
    {
      path.AtLeaf(pool.view, L, pool.leafCap, root);
      var step;
      if path.entry[path.size - 1] + 1 < pool.Entries(path.node[path.size - 1]) {
        step := StepInLeaf(path, key, pool, L, root, q);
      } else {
        step := StepToLeaf(path, key, pool, L, root, q);
      }
      if step.Some? {
        return step.value;
      }
      q := path.pos[path.size];
    }
  }

  // ---------------------------------------------------------------- one entry

  /** The path is at the entry of `key` (whose value is `found`), or at the place where it belongs. */
  ghost predicate Spot(path: Path, view: View, L: seq<Level>, key: Key, found: Option<Value>)
    reads path, path.node, path.entry
  {
    && path.AtCursor(view, L) && path.size < |path.pos| && path.pos[path.size] <= |L[|L| - 1]|
    && (found.None? ==> FitsAt(L[|L| - 1], path.pos[path.size], key) && (path.entry[path.size - 1] == 0 ==> path.AtFirst()))
    && (found.Some? ==>
      path.OnEntry(view, L) && path.pos[path.size] < |L[|L| - 1]| && L[|L| - 1][path.pos[path.size]] == Entry(key, found.value))
  }

  ghost predicate OnKey(path: Path, view: View, L: seq<Level>, key: Key)
    reads path, path.node, path.entry
  {
    && path.OnEntry(view, L) && path.size < |path.pos| && path.pos[path.size] < |L[|L| - 1]|
    && L[|L| - 1][path.pos[path.size]].Entry? && L[|L| - 1][path.pos[path.size]].key == key
  }

  /** Store a pair at its spot. */
  method Place(path: Path, key: Key, found: Option<Value>, value: Value, pool: NodePool, ghost L: seq<Level>, ghost root: Node)
    returns (ghost L': seq<Level>)
    requires Ready(path, pool) && |L| <= MAX_PATH + 1 && TreeOk(pool.view, L, pool.leafCap, root) && path.node[0] == root
    requires Spot(path, pool.view, L, key, found) && |L[|L| - 1]| < MAX_ENTRIES
    modifies path, path.node, path.entry, pool.Repr
    ensures Ready(path, pool) && fresh(pool.Repr - old(pool.Repr))
    ensures 2 <= |L'| <= MAX_PATH + 1 && TreeOk(pool.view, L', pool.leafCap, path.node[0])
    ensures OnKey(path, pool.view, L', key)
    ensures Replaced(old(pool.view), pool.view, AllIds(L), AllIds(L'))
    ensures |L'[|L'| - 1]| <= |L[|L| - 1]| + 1
    ensures Sorted(L[|L| - 1]) && Sorted(L'[|L'| - 1])
    ensures found == Lookup(MapOf(L[|L| - 1]), key) && MapOf(L'[|L'| - 1]) == MapOf(L[|L| - 1])[key := value]
  {
    hide TreeOk, Expand, KidsOf, Offset, NodePool.Valid, FitsAt, Replaced, Sorted, MapOf;
    ghost var q, s := path.pos[path.size], L[|L| - 1];
    SortedLast(pool.view, L, pool.leafCap, root);
    if found.Some? {
      L' := SetValue(path, value, pool, L, root);
      MapHas(s, q);
      MapUpdate(s, q, value);
    } else {
      MapAbsent(s, q, key);
      MapInsert(s, q, key, value);
      var root';
      root', L' := BForestInsert.Insert(path, key, value, pool, L, root);
    }
  }

  lemma SortedLast(view: View, L: seq<Level>, leafCap: nat, root: Node)
    requires TreeOk(view, L, leafCap, root)
    ensures |L| >= 2 && Sorted(L[|L| - 1])
  {
  }

  // ---------------------------------------------------------------- a map that is being changed

  /** The tree `L` below the path replaces that of `m`; the map itself does not know its new root yet. */
  ghost predicate Open(m: Map, forest: Forest, path: Path, kept: map<Map, Tree>, L: seq<Level>)
    reads forest, forest.pool, forest.pool.Repr, path, path.node, path.entry, kept.Keys
  {
    && forest.trees == kept && m in kept && Ready(path, forest.pool)
    && forest !in forest.pool.Repr && m !in forest.pool.Repr
    && (forall o :: o in kept && o != m ==> forest.Rooted(o))
    && path.size > 0
    && ForestOk(forest.pool.view, forest.pool.leafCap, kept[m := Tree(Some(path.node[0]), L)])
  }

  ghost method Close(m: Map, forest: Forest, path: Path, kept: map<Map, Tree>, L: seq<Level>)
    requires Open(m, forest, path, kept, L) && m.root == Some(path.node[0])
    modifies forest`trees
    ensures InForest(m, forest) && forest.trees == kept[m := Tree(m.root, L)]
  {
    hide ForestOk;
    forest.trees := kept[m := Tree(m.root, L)];
    forall o | o in forest.trees ensures forest.Rooted(o) {
      if o != m { assert old(forest.Rooted(o)); }
    }
  }

  lemma OpenGrown(m: Map, forest: Forest, path: Path, kept: map<Map, Tree>, L: seq<Level>)
    requires Open(m, forest, path, kept, L)
    ensures 2 <= |L| <= MAX_PATH + 1 && TreeOk(forest.pool.view, L, forest.pool.leafCap, path.node[0])
    ensures Sorted(L[|L| - 1])
  {
    hide TreeOk;
    var T := kept[m := Tree(Some(path.node[0]), L)];
    assert m in T && Grown(forest.pool.view, forest.pool.leafCap, T[m]);
    SortedLast(forest.pool.view, L, forest.pool.leafCap, path.node[0]);
  }

  ghost predicate SameNodes(view: View, view': View, X: set<Node>) {
    forall n :: n in X ==> n < |view| && n < |view'| && view'[n] == view[n]
  }

  /** The nodes of the maps other than `m` are untouched. */
  ghost predicate OthersSame(view: View, view': View, kept: map<Map, Tree>, m: Map) {
    forall o :: o in kept && o != m ==> SameNodes(view, view', NodesOf(kept[o]))
  }

  /** The tree that is being changed has taken another step. */
  lemma OpenStep(view: View, view': View, leafCap: nat, kept: map<Map, Tree>, m: Map, t: Tree, t': Tree)
    requires m in kept && ForestOk(view, leafCap, kept[m := t])
    requires Replaced(view, view', NodesOf(t), NodesOf(t')) && Grown(view', leafCap, t')
    ensures ForestOk(view', leafCap, kept[m := t'])
    ensures OthersSame(view, view', kept, m)
  {
    hide ForestOk, Replaced, Grown;
    ForestStep(view, view', leafCap, kept[m := t], m, t');
    assert kept[m := t][m := t'] == kept[m := t'];
    StepOthers(view, view', leafCap, kept, m, t, t');
  }

  lemma StepOthers(view: View, view': View, leafCap: nat, kept: map<Map, Tree>, m: Map, t: Tree, t': Tree)
    requires m in kept && ForestOk(view, leafCap, kept[m := t])
    requires Replaced(view, view', NodesOf(t), NodesOf(t'))
    ensures OthersSame(view, view', kept, m)
  {
    hide Grown;
    var T := kept[m := t];
    forall o | o in kept && o != m ensures SameNodes(view, view', NodesOf(kept[o])) {
      assert o in T && T[o] == kept[o] && m in T && T[m] == t;
      assert NodesOf(T[o]) !! NodesOf(T[m]);
      forall n | n in NodesOf(kept[o]) ensures n < |view| && n < |view'| && view'[n] == view[n] {
        assert n in NodesOf(T[o]) && Owned(T, n);
        assert n in Live(view);
      }
    }
  }

  /** Store a pair in the tree that is being changed. */
  method PlaceOpen(m: Map, forest: Forest, path: Path, key: Key, found: Option<Value>, value: Value,
                   ghost kept: map<Map, Tree>, ghost L: seq<Level>)
    returns (ghost L': seq<Level>)
    requires Open(m, forest, path, kept, L) && L != [] && Spot(path, forest.pool.view, L, key, found) && |L[|L| - 1]| < MAX_ENTRIES
    modifies path, path.node, path.entry, forest.pool.Repr
    ensures Open(m, forest, path, kept, L') && fresh(forest.pool.Repr - old(forest.pool.Repr))
    ensures OthersSame(old(forest.pool.view), forest.pool.view, kept, m)
    ensures L' != [] && OnKey(path, forest.pool.view, L', key)
    ensures |L'[|L'| - 1]| <= |L[|L| - 1]| + 1
    ensures Sorted(L[|L| - 1]) && Sorted(L'[|L'| - 1])
    ensures found == Lookup(MapOf(L[|L| - 1]), key) && MapOf(L'[|L'| - 1]) == MapOf(L[|L| - 1])[key := value]
  {
    hide TreeOk, ForestOk, NodePool.Valid, Replaced, Sorted, MapOf, Spot, OnKey;
    OpenGrown(m, forest, path, kept, L);
    ghost var view, root := forest.pool.view, path.node[0];
    SpotSize(path, view, L, key, found);
    L' := Place(path, key, found, value, forest.pool, L, root);
    OpenStep(view, forest.pool.view, forest.pool.leafCap, kept, m, Tree(Some(root), L), Tree(Some(path.node[0]), L'));
    KeySize(path, forest.pool.view, L', key);
    forall o | o in kept && o != m ensures forest.Rooted(o) { assert old(forest.Rooted(o)); }
  }

  lemma SpotSize(path: Path, view: View, L: seq<Level>, key: Key, found: Option<Value>)
    requires Spot(path, view, L, key, found)
    ensures path.size > 0
  {
  }

  lemma KeySize(path: Path, view: View, L: seq<Level>, key: Key)
    requires OnKey(path, view, L, key)
    ensures path.size > 0
  {
  }

  /** What the caller makes of the stored value, if any, and the new one, on its `n`-th call. */
  type Combine<!T> = (nat, Option<Value>, T) -> Value

  /** `M` after `f` was applied to one more pair. */
  ghost function Applied<T>(M: map<Key, Value>, n: nat, key: Key, x: T, f: Combine<T>): map<Key, Value> {
    M[key := f(n, Lookup(M, key), x)]
  }

  ghost function Last(L: seq<Level>): map<Key, Value> {
    if L != [] && Sorted(L[|L| - 1]) then MapOf(L[|L| - 1]) else map[]
  }

  /** The first pair: search for its place, or start a tree. */
  method OpenFirst<T>(m: Map, forest: Forest, path: Path, key: Key, x: T, f: Combine<T>, ghost kept: map<Map, Tree>)
    returns (ghost L': seq<Level>)
    requires InForest(m, forest) && Ready(path, forest.pool) && kept == forest.trees && |Entries(kept[m])| < MAX_ENTRIES
    modifies path, path.node, path.entry, forest.pool.Repr
    ensures Open(m, forest, path, kept, L') && fresh(forest.pool.Repr - old(forest.pool.Repr))
    ensures OthersSame(old(forest.pool.view), forest.pool.view, kept, m)
    ensures L' != [] && OnKey(path, forest.pool.view, L', key) && |L'[|L'| - 1]| <= |Entries(kept[m])| + 1
    ensures Last(L') == Applied(Model(kept[m]), 0, key, x, f)
  {
    hide TreeOk, ForestOk, NodePool.Valid, Replaced, Sorted, MapOf, Expand, KidsOf, Offset, PathTo, OnKey, FitsAt;
    RootFacts(m, forest);
    ghost var t, view := kept[m], forest.pool.view;
    if m.root.Some? {
      var root := m.root.value;
      var found := path.Find(key, root, forest.pool, t.L);
      FindSpot(path, view, t.L, key, found);
      assert kept[m := Tree(Some(root), t.L)] == kept;
      forall o | o in kept && o != m ensures forest.Rooted(o) { assert old(forest.Rooted(o)); }
      var value := f(0, found, x);
      L' := PlaceOpen(m, forest, path, key, found, value, kept, t.L);
    } else {
      var value := f(0, None, x);
      var root;
      root, L' := NewTree(path, key, value, forest.pool);
      assert kept[m := t] == kept;
      OpenStep(view, forest.pool.view, forest.pool.leafCap, kept, m, t, Tree(Some(root), L'));
      forall o | o in kept && o != m ensures forest.Rooted(o) { assert old(forest.Rooted(o)); }
      ModelSingle(t, Tree(Some(root), L'), key, value);
      SortedLast(forest.pool.view, L', forest.pool.leafCap, root);
      SingleKey(path, forest.pool.view, L', key, value);
    }
  }

  lemma FindSpot(path: Path, view: View, L: seq<Level>, key: Key, found: Option<Value>)
    requires |L| > 0 && path.AtCursor(view, L) && path.pos[path.size] <= |L[|L| - 1]|
    requires found.Some? ==> path.OnEntry(view, L) && path.pos[path.size] < |L[|L| - 1]| && L[|L| - 1][path.pos[path.size]] == Entry(key, found.value)
    requires found.None? ==>
      && (path.pos[path.size] > 0 ==> L[|L| - 1][path.pos[path.size] - 1].Entry? && L[|L| - 1][path.pos[path.size] - 1].key < key)
      && (path.pos[path.size] < |L[|L| - 1]| ==> L[|L| - 1][path.pos[path.size]].Entry? && key < L[|L| - 1][path.pos[path.size]].key)
      && (path.entry[path.size - 1] == 0 ==> path.AtFirst())
    ensures Spot(path, view, L, key, found)
  {
    hide Expand, KidsOf, Offset;
  }

  lemma SingleKey(path: Path, view: View, L: seq<Level>, key: Key, value: Value)
    requires |L| > 0 && path.OnEntry(view, L) && path.pos[path.size] == 0 && L[|L| - 1] == [Entry(key, value)]
    ensures OnKey(path, view, L, key)
  {
    hide Expand, KidsOf, Offset;
  }

  /** Every further pair: go on from the one before. */
  method OpenNext<T>(m: Map, forest: Forest, path: Path, before: Key, n: nat, key: Key, x: T, f: Combine<T>,
                     ghost kept: map<Map, Tree>, ghost L: seq<Level>)
    returns (ghost L': seq<Level>)
    requires Open(m, forest, path, kept, L) && L != [] && OnKey(path, forest.pool.view, L, before) && before < key
    requires |L[|L| - 1]| < MAX_ENTRIES
    modifies path, path.node, path.entry, forest.pool.Repr
    ensures Open(m, forest, path, kept, L') && fresh(forest.pool.Repr - old(forest.pool.Repr))
    ensures OthersSame(old(forest.pool.view), forest.pool.view, kept, m)
    ensures L' != [] && OnKey(path, forest.pool.view, L', key) && |L'[|L'| - 1]| <= |L[|L| - 1]| + 1
    ensures Last(L') == Applied(Last(L), n, key, x, f)
  {
    hide TreeOk, ForestOk, NodePool.Valid, Replaced, Sorted, MapOf, Expand, KidsOf, Offset, PathTo, FitsAt;
    OpenGrown(m, forest, path, kept, L);
    var found := AdvanceToInsertPos(path, key, forest.pool, L, path.node[0]);
    forall o | o in kept && o != m ensures forest.Rooted(o) { assert old(forest.Rooted(o)); }
    var value := f(n, found, x);
    L' := PlaceOpen(m, forest, path, key, found, value, kept, L);
  }

  ghost predicate StrictlyAscending<T>(src: seq<(Key, T)>) {
    forall i, j :: 0 <= i < j < |src| ==> src[i].0 < src[j].0
  }

  /** `M` after `f` was applied to the pairs of `src` one by one. */
  ghost function Folded<T>(M: map<Key, Value>, src: seq<(Key, T)>, f: Combine<T>): map<Key, Value> {
    if src == [] then M
    else
      var n := |src| - 1;
      Applied(Folded(M, src[..n], f), n, src[n].0, src[n].1, f)
  }

  /** For an ascending source `f` sees, key by key, what the original map holds; nothing else changes. */
  lemma {:induction false} FoldedPointwise<T>(M: map<Key, Value>, src: seq<(Key, T)>, f: Combine<T>, key: Key)
    requires StrictlyAscending(src)
    ensures (forall i :: 0 <= i < |src| ==> src[i].0 != key) ==> Lookup(Folded(M, src, f), key) == Lookup(M, key)
    ensures forall i :: 0 <= i < |src| && src[i].0 == key ==> Lookup(Folded(M, src, f), key) == Some(f(i, Lookup(M, key), src[i].1))
  {
    if src != [] {
      var n := |src| - 1;
      var front := src[..n];
      FoldedPointwise(M, front, f, key);
      assert forall i :: 0 <= i < n ==> front[i] == src[i] && src[i].0 < src[n].0;
    }
  }

  /**
   * `N` holds, for every key of the source, `f` of what `M` holds and of the source value; all other
   * keys are as in `M`.  The first argument of `f` is the number of the call.
   */
  ghost predicate Combined<T>(M: map<Key, Value>, N: map<Key, Value>, src: seq<(Key, T)>, f: Combine<T>) {
    forall key: Key ::
      && ((forall i :: 0 <= i < |src| ==> src[i].0 != key) ==> Lookup(N, key) == Lookup(M, key))
      && (forall i :: 0 <= i < |src| && src[i].0 == key ==> Lookup(N, key) == Some(f(i, Lookup(M, key), src[i].1)))
  }

  lemma FoldedCombines<T>(M: map<Key, Value>, src: seq<(Key, T)>, f: Combine<T>)
    requires StrictlyAscending(src)
    ensures Combined(M, Folded(M, src, f), src, f)
  {
    hide Folded, Lookup;
    forall key: Key ensures
      && ((forall i :: 0 <= i < |src| ==> src[i].0 != key) ==> Lookup(Folded(M, src, f), key) == Lookup(M, key))
      && (forall i :: 0 <= i < |src| && src[i].0 == key ==> Lookup(Folded(M, src, f), key) == Some(f(i, Lookup(M, key), src[i].1)))
    {
      FoldedPointwise(M, src, f, key);
    }
  }

  lemma FoldedOne<T>(M: map<Key, Value>, src: seq<(Key, T)>, f: Combine<T>)
    requires src != []
    ensures Folded(M, src[..1], f) == Applied(M, 0, src[0].0, src[0].1, f)
  {
    assert src[..1][..0] == [];
    assert Folded(M, src[..1][..0], f) == M;
  }

  lemma FoldedMore<T>(M: map<Key, Value>, src: seq<(Key, T)>, f: Combine<T>, i: nat)
    requires i < |src|
    ensures Folded(M, src[..i + 1], f) == Applied(Folded(M, src[..i], f), i, src[i].0, src[i].1, f)
  {
    assert src[..i + 1][..i] == src[..i];
  }

  /**
   * Insert the pairs of a strictly ascending sequence in one pass: the map ends up as if `f` had been
   * applied to the pairs one by one, and key by key it holds what `f` made of the old value.
   */
  method InsertSorted<T>(m: Map, forest: Forest, src: seq<(Key, T)>, f: Combine<T>)
    requires InForest(m, forest) && StrictlyAscending(src) && |Entries(forest.trees[m])| + |src| <= MAX_ENTRIES
    modifies m, forest, forest.pool.Repr
    ensures InForest(m, forest) && fresh(forest.pool.Repr - old(forest.pool.Repr))
    ensures forest.trees == old(forest.trees)[m := forest.trees[m]]
    ensures Model(forest.trees[m]) == Folded(old(Model(forest.trees[m])), src, f)
    ensures Combined(old(Model(forest.trees[m])), Model(forest.trees[m]), src, f)
  {
    hide TreeOk, ForestOk, NodePool.Valid, Forest.Valid, Sorted, MapOf, OnKey, Folded, Applied, Model, Open, Combined;
    ghost var kept := forest.trees;
    ghost var M := Model(kept[m]);
    FoldedCombines(M, src, f);
    if src == [] {
      FoldedNone(M, f);
      return;
    }
    var path := new Path();
    ReadyFresh(m, forest, path);
    ghost var L := OpenFirst(m, forest, path, src[0].0, src[0].1, f, kept);
    FoldedOne(M, src, f);
    for i := 1 to |src|
      invariant Open(m, forest, path, kept, L) && L != [] && OnKey(path, forest.pool.view, L, src[i - 1].0)
      invariant fresh(forest.pool.Repr - old(forest.pool.Repr))
      invariant |L[|L| - 1]| <= |Entries(kept[m])| + i
      invariant Last(L) == Folded(M, src[..i], f)
    {
      L := OpenNext(m, forest, path, src[i - 1].0, i, src[i].0, src[i].1, f, kept, L);
      FoldedMore(M, src, f, i);
    }
    assert src[..|src|] == src;
    Finish(m, forest, path, kept, L);
  }

  lemma FoldedNone<T>(M: map<Key, Value>, f: Combine<T>)
    ensures Folded(M, [], f) == M
  {
  }

  lemma ReadyFresh(m: Map, forest: Forest, path: Path)
    requires InForest(m, forest) && path.Valid() && path.Repr() !! forest.pool.Repr
    ensures Ready(path, forest.pool)
  {
  }

  /** The map learns its root. */
  method Finish(m: Map, forest: Forest, path: Path, ghost kept: map<Map, Tree>, ghost L: seq<Level>)
    requires Open(m, forest, path, kept, L) && L != []
    modifies m, forest
    ensures InForest(m, forest) && forest.trees == kept[m := Tree(m.root, L)]
    ensures Model(forest.trees[m]) == Last(L)
  {
    hide TreeOk, ForestOk, NodePool.Valid, Sorted, MapOf;
    m.root := Some(path.node[0]);
    forall o | o in kept && o != m ensures forest.Rooted(o) { assert old(forest.Rooted(o)); }
    Close(m, forest, path, kept, L);
  }

  // ---------------------------------------------------------------- another map as the source

  /** The source cursor has returned the first `n` entries of its tree, which is in order. */
  ghost predicate Reading(path: Path, pool: NodePool, t: Tree, n: nat)
    reads path, path.node, path.entry, pool, pool.Repr
  {
    && Ready(path, pool) && Grown(pool.view, pool.leafCap, t) && n <= |Entries(t)|
    && (path.size == 0 ==> n == |Entries(t)|)
    && (path.size > 0 ==> t.root.Some? && path.OnEntry(pool.view, t.L) && path.size < |path.pos| && path.pos[path.size] + 1 == n)
  }

  /** A cursor does not notice changes outside its tree. */
  lemma SourceStays(view: View, view': View, L: seq<Level>, leafCap: nat, root: Node, node: seq<Node>,
                    entry: seq<nat>, pos: seq<nat>, n: nat)
    requires TreeOk(view, L, leafCap, root) && SameNodes(view, view', AllIds(L)) && n + 1 == |L|
    requires PathTo(view, L, node, entry, pos, n) && pos[n - 1] < |L[n - 1]|
    ensures PathTo(view', L, node, entry, pos, n)
    ensures Offset(view', L[n - 1], pos[n - 1]) == Offset(view, L[n - 1], pos[n - 1])
    ensures EntriesAt(view', L, pos, n - 1) == EntriesAt(view, L, pos, n - 1)
  {
    hide Expand;
    forall j | 0 <= j < |L| - 1 ensures AgreeOn(view, view', L[j]) {
      LevelStays(view, view', L, leafCap, root, j);
    }
    UpperFrame(view, view', L, L, node, entry, pos, node, entry, pos, n);
    ExpandFrame(view, view', L[n - 1][..pos[n - 1]]);
  }

  lemma LevelStays(view: View, view': View, L: seq<Level>, leafCap: nat, root: Node, j: nat)
    requires TreeOk(view, L, leafCap, root) && SameNodes(view, view', AllIds(L)) && j + 1 < |L|
    ensures AgreeOn(view, view', L[j])
  {
    assert NodeLevel(view, L, leafCap, j);
    forall i | 0 <= i < |L[j]| ensures KidsOf(view', L[j][i]) == KidsOf(view, L[j][i]) {
      assert NodeOk(view, L[j][i], j + 2 == |L|, CapAt(j + 2 == |L|, leafCap));
      assert L[j][i].id in Ids(L[j]) && L[j][i].id in AllIds(L);
    }
  }

  /** The source cursor keeps its position while the other map changes. */
  lemma ReadingStays(path: Path, view: View, pool: NodePool, t: Tree, n: nat)
    requires Ready(path, pool) && Grown(view, pool.leafCap, t) && Grown(pool.view, pool.leafCap, t) && n <= |Entries(t)|
    requires path.size == 0 ==> n == |Entries(t)|
    requires path.size > 0 ==> t.root.Some? && path.OnEntry(view, t.L) && path.size < |path.pos| && path.pos[path.size] + 1 == n
    requires SameNodes(view, pool.view, NodesOf(t))
    ensures Reading(path, pool, t, n)
  {
    hide Expand, KidsOf, Offset, TreeOk;
    if path.size > 0 {
      SourceStays(view, pool.view, t.L, pool.leafCap, t.root.value, path.node[..], path.entry[..], path.pos, path.size);
    }
  }

  lemma OtherGrown(m: Map, other: Map, forest: Forest, path: Path, kept: map<Map, Tree>, L: seq<Level>)
    requires Open(m, forest, path, kept, L) && other in kept && other != m
    ensures Grown(forest.pool.view, forest.pool.leafCap, kept[other])
  {
    var T := kept[m := Tree(Some(path.node[0]), L)];
    assert other in T && T[other] == kept[other];
  }

  /** The next pair of the source, if there is one. */
  method ReadNext(path: Path, pool: NodePool, ghost t: Tree, ghost n: nat) returns (r: Option<(Key, Value)>)
    requires Reading(path, pool, t, n)
    modifies path, path.node, path.entry
    ensures r.Some? <==> n < |Entries(t)|
    ensures r.Some? ==> Reading(path, pool, t, n + 1) && Entries(t)[n] == Entry(r.value.0, r.value.1)
    ensures r.None? ==> Reading(path, pool, t, n)
  {
    hide TreeOk, Expand, KidsOf, Offset, NodePool.Valid, PathTo;
    r := path.Next(pool, t.L, if t.root.Some? then t.root.value else 0);
  }

  /** Both cursors of a merge after `n` pairs. */
  ghost predicate Merging(m: Map, other: Map, forest: Forest, path: Path, src: Path, kept: map<Map, Tree>, L: seq<Level>, n: nat)
    reads forest, forest.pool, forest.pool.Repr, path, path.node, path.entry, src, src.node, src.entry, kept.Keys
  {
    && Open(m, forest, path, kept, L) && L != [] && other in kept && other != m
    && Reading(src, forest.pool, kept[other], n)
    && path.Repr() !! src.Repr()
    && 0 < n <= |Entries(kept[other])|
    && Entries(kept[other])[n - 1].Entry? && OnKey(path, forest.pool.view, L, Entries(kept[other])[n - 1].key)
    && |L[|L| - 1]| <= |Entries(kept[m])| + n
  }

  /** Read one more pair of the source and merge it. */
  method MergeNext(m: Map, other: Map, forest: Forest, path: Path, src: Path, f: Combine<Value>, before: Key,
                   ghost kept: map<Map, Tree>, ghost L: seq<Level>, n: nat)
    returns (key: Option<Key>, ghost L': seq<Level>)
    requires Merging(m, other, forest, path, src, kept, L, n) && before == Entries(kept[other])[n - 1].key
    requires Sorted(Entries(kept[other])) && |Entries(kept[m])| + |Entries(kept[other])| <= MAX_ENTRIES
    modifies path, path.node, path.entry, src, src.node, src.entry, forest.pool.Repr
    ensures fresh(forest.pool.Repr - old(forest.pool.Repr))
    ensures key.None? ==> n == |Entries(kept[other])| && Merging(m, other, forest, path, src, kept, L', n) && L' == L
    ensures key.Some? ==>
      && n < |Entries(kept[other])| && Merging(m, other, forest, path, src, kept, L', n + 1)
      && Entries(kept[other])[n].Entry? && key.value == Entries(kept[other])[n].key
      && Last(L') == Applied(Last(L), n, key.value, Entries(kept[other])[n].value, f)
  {
    hide TreeOk, ForestOk, NodePool.Valid, Replaced, MapOf, OnKey, PathTo, Grown, Expand, KidsOf, Offset, SameNodes, Applied, Last;
    ghost var t := kept[other];
    L' := L;
    var next := ReadNext(src, forest.pool, t, n);
    forall o | o in kept && o != m ensures forest.Rooted(o) { assert old(forest.Rooted(o)); }
    if next.None? {
      return None, L';
    }
    ghost var view := forest.pool.view;
    assert before < next.value.0;
    L' := OpenNext(m, forest, path, before, n, next.value.0, next.value.1, f, kept, L);
    OtherGrown(m, other, forest, path, kept, L');
    ReadingStays(src, view, forest.pool, t, n + 1);
    key := Some(next.value.0);
  }

  /** Merge the first pair of a source that has one. */
  method MergeFirst(m: Map, other: Map, forest: Forest, path: Path, src: Path, f: Combine<Value>, root: Node, ghost kept: map<Map, Tree>)
    returns (key: Key, ghost L': seq<Level>)
    requires InForest(m, forest) && kept == forest.trees && other in kept && other != m && kept[other].root == Some(root)
    requires Ready(path, forest.pool) && Ready(src, forest.pool) && path.Repr() !! src.Repr()
    requires |Entries(kept[m])| < MAX_ENTRIES
    modifies path, path.node, path.entry, src, src.node, src.entry, forest.pool.Repr
    ensures fresh(forest.pool.Repr - old(forest.pool.Repr))
    ensures Merging(m, other, forest, path, src, kept, L', 1) && key == Entries(kept[other])[0].key
    ensures Last(L') == Applied(Model(kept[m]), 0, key, Entries(kept[other])[0].value, f)
  {
    hide TreeOk, ForestOk, NodePool.Valid, Replaced, MapOf, OnKey, PathTo, Sorted, Model, Expand, KidsOf, Offset, SameNodes, Applied, Last;
    ghost var t, view := kept[other], forest.pool.view;
    RootFacts(other, forest);
    var value;
    key, value := src.First(root, forest.pool, t.L);
    L' := OpenFirst(m, forest, path, key, value, f, kept);
    OtherGrown(m, other, forest, path, kept, L');
    ReadingStays(src, view, forest.pool, t, 1);
  }

  /** The pairs of a sorted list of entries ascend. */
  lemma PairsAscend(s: Level)
    requires Sorted(s)
    ensures StrictlyAscending(Pairs(s))
  {
  }

  // ---------------------------------------------------------------- a copy of the map as the source

  /** Overwrite the entry that both cursors are on. */
  method SetSame(m: Map, forest: Forest, path: Path, src: Path, n: nat, key: Key, x: Value, value: Value,
                 ghost kept: map<Map, Tree>, ghost L: seq<Level>)
    returns (ghost L': seq<Level>)
    requires Open(m, forest, path, kept, L) && L != [] && Ready(src, forest.pool) && path.Repr() !! src.Repr()
    requires n < |L[|L| - 1]| && L[|L| - 1][n] == Entry(key, x)
    requires path.OnEntry(forest.pool.view, L) && path.size < |path.pos| && path.pos[path.size] == n
    requires src.OnEntry(forest.pool.view, L) && src.size < |src.pos| && src.pos[src.size] == n
    modifies forest.pool.Repr
    ensures Open(m, forest, path, kept, L') && Ready(src, forest.pool) && forest.pool.Repr == old(forest.pool.Repr)
    ensures path.OnEntry(forest.pool.view, L') && src.OnEntry(forest.pool.view, L')
    ensures L' == L[|L| - 1 := WithValue(L[|L| - 1], n, value)]
    ensures Lookup(Last(L), key) == Some(x) && Last(L') == Last(L)[key := value]
  {
    hide TreeOk, ForestOk, NodePool.Valid, Replaced, Sorted, MapOf, Expand, KidsOf, Offset, PathTo, ValueAt;
    OpenGrown(m, forest, path, kept, L);
    ghost var view, root := forest.pool.view, path.node[0];
    L' := SetValue(path, value, forest.pool, L, root);
    OtherCursor(view, forest.pool.view, L, forest.pool.leafCap, root, path, src, value);
    OpenStep(view, forest.pool.view, forest.pool.leafCap, kept, m, Tree(Some(root), L), Tree(Some(root), L'));
    forall o | o in kept && o != m ensures forest.Rooted(o) { assert old(forest.Rooted(o)); }
    MapHas(L[|L| - 1], n);
    MapUpdate(L[|L| - 1], n, value);
  }

  /** Both cursors are on entry `n - 1` of the same tree; from there on it is as it was. */
  ghost predicate Together(m: Map, forest: Forest, path: Path, src: Path, kept: map<Map, Tree>, L: seq<Level>, n: nat)
    reads forest, forest.pool, forest.pool.Repr, path, path.node, path.entry, src, src.node, src.entry, kept.Keys
  {
    && Open(m, forest, path, kept, L) && L != [] && Ready(src, forest.pool) && path.Repr() !! src.Repr()
    && SameRest(Entries(kept[m]), L[|L| - 1], n)
    && path.OnEntry(forest.pool.view, L) && path.size < |path.pos| && path.pos[path.size] + 1 == n
    && src.OnEntry(forest.pool.view, L) && src.size < |src.pos| && src.pos[src.size] + 1 == n
  }

  /** Both lists have the same keys, and the same entries from `n` on. */
  ghost predicate SameRest(s: Level, s': Level, n: nat) {
    && n <= |s| == |s'|
    && (forall i :: 0 <= i < |s| ==> s[i].Entry? && s'[i].Entry? && s[i].key == s'[i].key)
    && (forall i :: n <= i < |s| ==> s'[i] == s[i])
  }

  lemma RestStep(s: Level, s': Level, n: nat, value: Value)
    requires SameRest(s, s', n) && n < |s|
    ensures SameRest(s, WithValue(s', n, value), n + 1)
  {
  }

  /** A search among ascending keys for that of entry `n` ends there. */
  lemma FoundThere(s: Level, n: nat, key: Key, q: nat, found: Option<Value>)
    requires Sorted(s) && n < |s| && s[n].Entry? && s[n].key == key && q <= |s|
    requires if found.Some? then q < |s| && s[q] == Entry(key, found.value) else FitsAt(s, q, key)
    ensures found == Some(s[n].value) && q == n
  {
    if found.Some? {
      KeyOrder(s, q, n);
      KeyOrder(s, n, q);
    } else {
      MapAbsent(s, q, key);
      MapHas(s, n);
    }
  }

  /** One more entry: the source reads it, and it is found and overwritten. */
  method NextSame(m: Map, forest: Forest, path: Path, src: Path, f: Combine<Value>, ghost kept: map<Map, Tree>, ghost L: seq<Level>, n: nat)
    returns (more: bool, ghost L': seq<Level>)
    requires Together(m, forest, path, src, kept, L, n)
    modifies path, path.node, path.entry, src, src.node, src.entry, forest.pool.Repr
    ensures forest.pool.Repr == old(forest.pool.Repr) && more == (n < |Entries(kept[m])|)
    ensures !more ==> L' == L != [] && n == |Entries(kept[m])| && Open(m, forest, path, kept, L)
    ensures more ==>
      && Together(m, forest, path, src, kept, L', n + 1) && Entries(kept[m])[n].Entry?
      && Last(L') == Applied(Last(L), n, Entries(kept[m])[n].key, Entries(kept[m])[n].value, f)
  {
    hide TreeOk, ForestOk, NodePool.Valid, Replaced, MapOf, Sorted, Expand, KidsOf, Offset, PathTo, FitsAt, Last;
    OpenGrown(m, forest, path, kept, L);
    L' := L;
    ghost var root := path.node[0];
    var next := src.Next(forest.pool, L, root);
    more := next.Some?;
    forall o | o in kept && o != m ensures forest.Rooted(o) { assert old(forest.Rooted(o)); }
    if next.Some? {
      var (key, x) := next.value;
      ghost var s := L[|L| - 1];
      KeyOrder(s, n - 1, n);
      var found := AdvanceToInsertPos(path, key, forest.pool, L, root);
      FoundThere(s, n, key, path.pos[path.size], found);
      forall o | o in kept && o != m ensures forest.Rooted(o) { assert old(forest.Rooted(o)); }
      L' := SetSame(m, forest, path, src, n, key, x, f(n, found, x), kept, L);
      RestStep(Entries(kept[m]), s, n, f(n, found, x));
    }
  }

  /** The first entry of a map that is merged with a copy of itself. */
  method FirstSame(m: Map, forest: Forest, path: Path, src: Path, f: Combine<Value>, root: Node, ghost kept: map<Map, Tree>)
    returns (ghost L': seq<Level>)
    requires InForest(m, forest) && kept == forest.trees && m.root == Some(root)
    requires Ready(path, forest.pool) && Ready(src, forest.pool) && path.Repr() !! src.Repr()
    modifies path, path.node, path.entry, src, src.node, src.entry, forest.pool.Repr
    ensures forest.pool.Repr == old(forest.pool.Repr)
    ensures Together(m, forest, path, src, kept, L', 1) && Entries(kept[m])[0].Entry?
    ensures Last(L') == Applied(Model(kept[m]), 0, Entries(kept[m])[0].key, Entries(kept[m])[0].value, f)
  {
    hide TreeOk, ForestOk, NodePool.Valid, Replaced, MapOf, Sorted, Expand, KidsOf, Offset, PathTo, FitsAt;
    RootFacts(m, forest);
    ghost var L := kept[m].L;
    var key, x := src.First(root, forest.pool, L);
    var found := path.Find(key, root, forest.pool, L);
    FindSpot(path, forest.pool.view, L, key, found);
    FoundThere(Entries(kept[m]), 0, key, path.pos[path.size], found);
    assert kept[m := Tree(Some(root), L)] == kept;
    forall o | o in kept && o != m ensures forest.Rooted(o) { assert old(forest.Rooted(o)); }
    EntriesOnly(Entries(kept[m]));
    L' := SetSame(m, forest, path, src, 0, key, x, f(0, found, x), kept, L);
    RestStep(Entries(kept[m]), L[|L| - 1], 0, f(0, found, x));
  }

  /** Merge a map with a copy of itself: every key is found, so that only values change. */
  method MergeSame(m: Map, forest: Forest, f: Combine<Value>)
    requires InForest(m, forest)
    modifies m, forest, forest.pool.Repr
    ensures InForest(m, forest) && forest.pool.Repr == old(forest.pool.Repr)
    ensures forest.trees == old(forest.trees)[m := forest.trees[m]]
    ensures Sorted(old(Entries(forest.trees[m])))
    ensures Model(forest.trees[m]) == Folded(old(Model(forest.trees[m])), Pairs(old(Entries(forest.trees[m]))), f)
  {
    hide TreeOk, ForestOk, NodePool.Valid, Forest.Valid, MapOf, Folded, Applied, Model, Open, SameRest, Sorted, Last, Together;
    ghost var kept := forest.trees;
    ghost var M, s := Model(kept[m]), Entries(kept[m]);
    RootFacts(m, forest);
    EntriesOnly(s);
    ghost var pairs := Pairs(s);
    if m.root.None? {
      assert pairs == [];
      FoldedNone(M, f);
      return;
    }
    HasEntry(forest.pool.view, kept[m].L, forest.pool.leafCap, m.root.value);
    var src := new Path();
    var path := new Path();
    ReadyFresh(m, forest, path);
    ReadyFresh(m, forest, src);
    ghost var L := FirstSame(m, forest, path, src, f, m.root.value, kept);
    FoldedOne(M, pairs, f);
    var n: nat := 1;
    var more := true;
    while more
      invariant forest.pool.Repr == old(forest.pool.Repr) && 0 < n <= |s|
      invariant if more then Together(m, forest, path, src, kept, L, n) else Open(m, forest, path, kept, L) && L != [] && n == |s|
      invariant Last(L) == Folded(M, pairs[..n], f)
      decreases |s| - n, if more then 1 else 0
    {
      more, L := NextSame(m, forest, path, src, f, kept, L, n);
      if more {
        FoldedMore(M, pairs, f, n);
        n := n + 1;
      }
    }
    assert pairs[..|s|] == pairs;
    Finish(m, forest, path, kept, L);
  }

  /** Merge the entries of a map of the forest, perhaps `m` itself, into `m`; another map keeps its entries. */
  method Merge(m: Map, other: Map, forest: Forest, f: Combine<Value>)
    requires InForest(m, forest) && other in forest.trees
    requires other != m ==> |Entries(forest.trees[m])| + |Entries(forest.trees[other])| <= MAX_ENTRIES
    modifies m, forest, forest.pool.Repr
    ensures InForest(m, forest) && fresh(forest.pool.Repr - old(forest.pool.Repr))
    ensures forest.trees == old(forest.trees)[m := forest.trees[m]]
    ensures Sorted(old(Entries(forest.trees[other])))
    ensures Model(forest.trees[m]) == Folded(old(Model(forest.trees[m])), Pairs(old(Entries(forest.trees[other]))), f)
    ensures Combined(old(Model(forest.trees[m])), Model(forest.trees[m]), Pairs(old(Entries(forest.trees[other]))), f)
  {
    hide TreeOk, ForestOk, NodePool.Valid, Forest.Valid, MapOf, Folded, Model, Sorted, Combined;
    if other != m {
      MergeOther(m, other, forest, f);
    } else {
      RootFacts(m, forest);
      EntriesOnly(Entries(forest.trees[m]));
      PairsAscend(Entries(forest.trees[m]));
      FoldedCombines(Model(forest.trees[m]), Pairs(Entries(forest.trees[m])), f);
      MergeSame(m, forest, f);
    }
  }

  /** The source is another map. */
  method MergeOther(m: Map, other: Map, forest: Forest, f: Combine<Value>)
    requires InForest(m, forest) && other in forest.trees && other != m
    requires |Entries(forest.trees[m])| + |Entries(forest.trees[other])| <= MAX_ENTRIES
    modifies m, forest, forest.pool.Repr
    ensures InForest(m, forest) && fresh(forest.pool.Repr - old(forest.pool.Repr))
    ensures forest.trees == old(forest.trees)[m := forest.trees[m]]
    ensures Sorted(old(Entries(forest.trees[other])))
    ensures Model(forest.trees[m]) == Folded(old(Model(forest.trees[m])), Pairs(old(Entries(forest.trees[other]))), f)
    ensures Combined(old(Model(forest.trees[m])), Model(forest.trees[m]), Pairs(old(Entries(forest.trees[other]))), f)
  {
    hide TreeOk, ForestOk, NodePool.Valid, Forest.Valid, MapOf, OnKey, Folded, Applied, Model, Open, Reading, Sorted, Last, Combined;
    ghost var kept := forest.trees;
    ghost var M, s := Model(kept[m]), Entries(kept[other]);
    RootFacts(other, forest);
    EntriesOnly(s);
    PairsAscend(s);
    FoldedCombines(M, Pairs(s), f);
    if other.root.None? {
      assert Pairs(s) == [];
      FoldedNone(M, f);
      return;
    }
    HasEntry(forest.pool.view, kept[other].L, forest.pool.leafCap, other.root.value);
    ghost var pairs := Pairs(s);
    var src := new Path();
    var path := new Path();
    ReadyFresh(m, forest, path);
    ReadyFresh(m, forest, src);
    var key;
    ghost var L;
    key, L := MergeFirst(m, other, forest, path, src, f, other.root.value, kept);
    FoldedOne(M, pairs, f);
    var n: nat := 1;
    var next := Some(key);
    while next.Some?
      invariant Merging(m, other, forest, path, src, kept, L, n) && fresh(forest.pool.Repr - old(forest.pool.Repr))
      invariant next.Some? ==> next.value == s[n - 1].key
      invariant next.None? ==> n == |s|
      invariant Last(L) == Folded(M, pairs[..n], f)
      decreases |s| - n, if next.Some? then 1 else 0
    {
      ghost var i := n;
      next, L := MergeNext(m, other, forest, path, src, f, next.value, kept, L, n);
      if next.Some? {
        FoldedMore(M, pairs, f, i);
        n := n + 1;
      }
    }
    assert pairs[..|s|] == pairs;
    Finish(m, forest, path, kept, L);
  }
}
