/** Lookups, insertion and removal of single keys, and clearing of whole maps. */
module BForestOps {
  import opened Prelude
  import opened BForestLevels
  import opened BForestPool
  import opened BForestPathTheory
  import opened BForestPath
  import opened BForestFrame
  import opened BForestInsertTheory
  import opened BForestFreeTree
  import opened BForestModel
  import opened BForestMap

  /** The map lives in the forest. */
  ghost predicate InForest(m: Map, forest: Forest)
    reads forest, forest.pool, forest.pool.Repr, forest.trees.Keys
  {
    forest.Valid() && m in forest.trees
  }

  lemma RootFacts(m: Map, forest: Forest)
    requires InForest(m, forest)
    ensures m.root == forest.trees[m].root && Grown(forest.pool.view, forest.pool.leafCap, forest.trees[m])
    ensures Sorted(Entries(forest.trees[m])) && m !in forest.pool.Repr
  {
    hide TreeOk;
    assert forest.Rooted(m);
    TreeLive(forest.pool.view, forest.pool.leafCap, forest.trees[m]);
  }

  // ---------------------------------------------------------------- looking up

  /** The value stored for `key`. */
  method Get(m: Map, key: Key, forest: Forest) returns (r: Option<Value>)
    requires InForest(m, forest)
    ensures r == Lookup(Model(forest.trees[m]), key)
  {
    hide TreeOk, ForestOk, Expand, KidsOf, Offset, Sorted, FreeListOk, Model, MapOf;
    RootFacts(m, forest);
    if m.root.None? {
      GotoAnswer(forest.trees[m], 0, key, None);
      return None;
    }
    var path := new Path();
    r := path.Find(key, m.root.value, forest.pool, forest.trees[m].L);
    GotoAnswer(forest.trees[m], path.pos[path.size], key, r);
  }

  /** `r` is the entry of `M` with the greatest key that is not above `key`, if there is any. */
  ghost predicate IsFloor(M: map<Key, Value>, key: Key, r: Option<(Key, Value)>) {
    match r
    case None => forall k :: k in M ==> key < k
    case Some((k, v)) => k in M && M[k] == v && k <= key && forall k' :: k' in M && k' <= key ==> k' <= k
  }

  lemma FloorAt(t: Tree, q: nat, key: Key)
    requires Sorted(Entries(t)) && FitsAt(Entries(t), q, key)
    ensures q == 0 ==> IsFloor(Model(t), key, None)
    ensures q > 0 ==> Entries(t)[q - 1].Entry? && IsFloor(Model(t), key, Some((Entries(t)[q - 1].key, Entries(t)[q - 1].value)))
  {
    hide MapOf, Sorted;
    var s := Entries(t);
    forall k | k in MapOf(s) ensures if q > 0 && k <= key then k <= s[q - 1].key else key < k {
      var i := MapIndex(s, k);
      if i < q { KeyOrder(s, q - 1, i); } else { KeyOrder(s, q, i); KeyOrder(s, i, q); }
    }
    if q > 0 { MapHas(s, q - 1); }
  }

  lemma FloorHit(t: Tree, q: nat, key: Key, value: Value)
    requires Sorted(Entries(t)) && q < |Entries(t)| && Entries(t)[q] == Entry(key, value)
    ensures IsFloor(Model(t), key, Some((key, value)))
  {
    hide MapOf, Sorted;
    MapHas(Entries(t), q);
  }

  /** The entry of `key`, or else the last entry before it. */
  method GetOrLess(m: Map, key: Key, forest: Forest) returns (r: Option<(Key, Value)>)
    requires InForest(m, forest)
    ensures IsFloor(Model(forest.trees[m]), key, r)
  {
    hide TreeOk, ForestOk, Expand, KidsOf, Offset, Sorted, FreeListOk, Model, MapOf, IsFloor;
    RootFacts(m, forest);
    ghost var t := forest.trees[m];
    if m.root.None? {
      FloorAt(t, 0, key);
      return None;
    }
    var path := new Path();
    var v := path.Find(key, m.root.value, forest.pool, t.L);
    ghost var q := path.pos[path.size];
    if v.Some? {
      FloorHit(t, q, key, v.value);
      return Some((key, v.value));
    }
    assert FitsAt(Entries(t), q, key) by { FoundGap(t.L, q, key); }
    FloorAt(t, q, key);
    r := path.Prev(m.root.value, forest.pool, t.L);
  }

  // ---------------------------------------------------------------- changing

  method Insert(m: Map, key: Key, value: Value, forest: Forest) returns (r: Option<Value>)
    requires InForest(m, forest) && |Entries(forest.trees[m])| < MAX_ENTRIES
    modifies m, forest, forest.pool.Repr
    ensures InForest(m, forest) && fresh(forest.pool.Repr - old(forest.pool.Repr))
    ensures forest.trees == old(forest.trees)[m := forest.trees[m]]
    ensures Model(forest.trees[m]) == old(Model(forest.trees[m]))[key := value]
    ensures r == Lookup(old(Model(forest.trees[m])), key)
  {
    hide ForestOk, Model, TreeOk, FreeListOk;
    var c := new Cursor(m, forest);
    r := c.Insert(key, value);
  }

  method Remove(m: Map, key: Key, forest: Forest) returns (r: Option<Value>)
    requires InForest(m, forest)
    modifies m, forest, forest.pool.Repr
    ensures InForest(m, forest) && forest.pool.Repr == old(forest.pool.Repr)
    ensures forest.trees == old(forest.trees)[m := forest.trees[m]]
    ensures Model(forest.trees[m]) == old(Model(forest.trees[m])) - {key}
    ensures r == Lookup(old(Model(forest.trees[m])), key)
  {
    hide ForestOk, Model, TreeOk, FreeListOk, Sorted, MapOf, FitsAt, Live, PathTo, Expand, KidsOf, Offset;
    RootFacts(m, forest);
    var c := new Cursor(m, forest);
    ghost var t := forest.trees[m];
    var found := c.Goto(key);
    if found.Some? {
      r := c.Remove();
      ModelDrop(t, forest.trees[m], c.Pos());
    } else {
      r := None;
      assert forest.trees == forest.trees[m := forest.trees[m]];
    }
  }

  /** Remove all entries of the map. */
  method Clear(m: Map, forest: Forest)
    requires InForest(m, forest)
    modifies m, forest, forest.pool
    ensures InForest(m, forest) && forest.pool.Repr == old(forest.pool.Repr)
    ensures forest.trees == old(forest.trees)[m := Tree(None, [])]
    ensures Live(forest.pool.view) == old(Live(forest.pool.view)) - NodesOf(old(forest.trees)[m])
  {
    hide ForestOk, TreeOk, FreeListOk;
    RootFacts(m, forest);
    ghost var view, t := forest.pool.view, forest.trees[m];
    if m.root.Some? {
      var root := m.root.value;
      m.root := None;
      FreeWhole(root, forest.pool, t.L);
      forall o | o in forest.trees && o != m ensures forest.Rooted(o) { assert old(forest.Rooted(o)); }
      forest.Commit(m, Tree(None, []), view);
    }
  }
}
