/** What the trees of a forest mean: each one is a finite map, and together they own the pool. */
module BForestModel {
  import opened Prelude
  import opened BForestLevels
  import opened BForestFrame
  import opened BForestInsertTheory
  import opened BForestTrees

  // ---------------------------------------------------------------- entries as a map

  /** The finite map that a sorted list of entries stands for. */
  ghost function MapOf(s: Level): map<Key, Value>
    requires Sorted(s)
  {
    map i | 0 <= i < |s| :: s[i].key := s[i].value
  }

  function Lookup<K, V>(m: map<K, V>, key: K): Option<V> {
    if key in m then Some(m[key]) else None
  }

  lemma MapHas(s: Level, q: nat)
    requires Sorted(s) && q < |s|
    ensures s[q].Entry? && s[q].key in MapOf(s) && MapOf(s)[s[q].key] == s[q].value
  {
  }

  lemma MapIndex(s: Level, key: Key) returns (i: nat)
    requires Sorted(s) && key in MapOf(s)
    ensures i < |s| && s[i] == Entry(key, MapOf(s)[key])
  {
    i :| 0 <= i < |s| && s[i].key == key;
  }

  lemma KeyOrder(s: Level, i: nat, j: nat)
    requires Sorted(s) && i < |s| && j < |s|
    ensures s[i].Entry? && s[j].Entry? && (i < j <==> s[i].key < s[j].key)
  {
  }

  /** A key that fits between two neighbours is not in the map. */
  lemma MapAbsent(s: Level, q: nat, key: Key)
    requires Sorted(s) && FitsAt(s, q, key)
    ensures key !in MapOf(s)
  {
    hide MapOf, Sorted;
    if key in MapOf(s) {
      var i := MapIndex(s, key);
      if i < q { KeyOrder(s, q - 1, i); } else { KeyOrder(s, i, q); }
    }
  }

  lemma MapInsert(s: Level, q: nat, key: Key, value: Value)
    requires Sorted(s) && FitsAt(s, q, key)
    ensures Sorted(InsertAt(s, q, Entry(key, value)))
    ensures MapOf(InsertAt(s, q, Entry(key, value))) == MapOf(s)[key := value]
  {
    hide MapOf, Sorted;
    SortedInsert(s, q, key, value);
    MapAbsent(s, q, key);
    var t := InsertAt(s, q, Entry(key, value));
    var M, N := MapOf(s)[key := value], MapOf(t);
    MapHas(t, q);
    forall k | k in M ensures k in N && N[k] == M[k] {
      if k != key {
        var i := MapIndex(s, k);
        MapHas(t, if i < q then i else i + 1);
      }
    }
    forall k | k in N ensures k in M {
      var i := MapIndex(t, k);
      if i != q { MapHas(s, if i < q then i else i - 1); }
    }
  }

  lemma MapRemove(s: Level, q: nat)
    requires Sorted(s) && q < |s|
    ensures Sorted(RemoveAt(s, q)) && s[q].Entry?
    ensures MapOf(RemoveAt(s, q)) == MapOf(s) - {s[q].key}
  {
    hide MapOf, Sorted;
    SortedRemoveAt(s, q);
    KeyOrder(s, q, q);
    var t := RemoveAt(s, q);
    var M, N := MapOf(s) - {s[q].key}, MapOf(t);
    forall k | k in N ensures k in M && M[k] == N[k] {
      var i := MapIndex(t, k);
      MapHas(s, if i < q then i else i + 1);
      KeyOrder(s, if i < q then i else i + 1, q);
      KeyOrder(s, q, if i < q then i else i + 1);
    }
    forall k | k in M ensures k in N {
      var i := MapIndex(s, k);
      MapHas(t, if i < q then i else i - 1);
    }
  }

  lemma SortedWithValue(s: Level, q: nat, value: Value)
    requires Sorted(s) && q < |s|
    ensures s[q].Entry? && Sorted(WithValue(s, q, value))
  {
  }

  lemma MapUpdate(s: Level, q: nat, value: Value)
    requires Sorted(s) && q < |s|
    ensures s[q].Entry? && Sorted(WithValue(s, q, value))
    ensures MapOf(WithValue(s, q, value)) == MapOf(s)[s[q].key := value]
  {
    hide MapOf, Sorted;
    SortedWithValue(s, q, value);
    var t := WithValue(s, q, value);
    var M, N := MapOf(s)[s[q].key := value], MapOf(t);
    MapHas(t, q);
    forall k | k in M ensures k in N && N[k] == M[k] {
      if k != s[q].key {
        var i := MapIndex(s, k);
        MapHas(t, i);
      }
    }
    forall k | k in N ensures k in M {
      var i := MapIndex(t, k);
      MapHas(s, i);
    }
  }

  /** Two sorted lists with the same map are the same list. */
  lemma {:induction false} MapDetermines(s: Level, t: Level)
    requires Sorted(s) && Sorted(t) && MapOf(s) == MapOf(t)
    ensures s == t
    decreases |s|
  {
    hide MapOf, Sorted;
    if s == [] {
      if t != [] { MapHas(t, 0); var i := MapIndex(s, t[0].key); }
    } else {
      var n := |s| - 1;
      MapHas(s, n);
      var j := MapIndex(t, s[n].key);
      var m := |t| - 1;
      MapHas(t, m);
      var i := MapIndex(s, t[m].key);
      KeyOrder(t, j, m);
      KeyOrder(s, n, i);
      assert j == m;
      assert RemoveAt(s, n) == s[..n] && RemoveAt(t, m) == t[..m];
      MapRemove(s, n);
      MapRemove(t, m);
      MapDetermines(s[..n], t[..m]);
      assert s == s[..n] + [s[n]] && t == t[..m] + [t[m]];
    }
  }

  // ---------------------------------------------------------------- the trees of a forest

  /** One tree, empty without a root. */
  datatype Tree = Tree(root: Option<Node>, L: seq<Level>)

  ghost function Entries(t: Tree): Level {
    if t.root.None? || t.L == [] then [] else t.L[|t.L| - 1]
  }

  ghost function NodesOf(t: Tree): set<Node> {
    if t.root.None? then {} else AllIds(t.L)
  }

  ghost predicate Grown(view: View, leafCap: nat, t: Tree) {
    match t.root
    case None => t.L == []
    case Some(root) => 2 <= |t.L| <= MAX_PATH + 1 && TreeOk(view, t.L, leafCap, root)
  }

  ghost predicate Owned<M>(T: map<M, Tree>, n: Node) {
    exists m :: m in T && n in NodesOf(T[m])
  }

  /**
   * Every tree is well-formed, no two trees share a node, and every slot of the pool that is not
   * free belongs to a tree.
   */
  ghost predicate ForestOk<M>(view: View, leafCap: nat, T: map<M, Tree>) {
    && (forall m :: m in T ==> Grown(view, leafCap, T[m]))
    && (forall m, m' :: m in T && m' in T && m != m' ==> NodesOf(T[m]) !! NodesOf(T[m']))
    && (forall n :: n in Live(view) <==> Owned(T, n))
  }

  lemma TreeLive(view: View, leafCap: nat, t: Tree)
    requires Grown(view, leafCap, t)
    ensures NodesOf(t) <= Live(view)
    ensures Sorted(Entries(t))
  {
    if t.root.Some? {
      forall k | 0 <= k < |t.L| - 1 ensures LevelSound(view, t.L, leafCap, k) {
        assert NodeLevel(view, t.L, leafCap, k);
      }
      IdsLive(view, t.L, leafCap);
    }
  }

  /** An operation that replaces the nodes of one tree keeps the forest in order. */
  lemma ForestStep<M>(view: View, view': View, leafCap: nat, T: map<M, Tree>, m: M, t: Tree)
    requires ForestOk(view, leafCap, T) && m in T
    requires Replaced(view, view', NodesOf(T[m]), NodesOf(t)) && Grown(view', leafCap, t)
    ensures ForestOk(view', leafCap, T[m := t])
  {
    hide TreeOk;
    var T' := T[m := t];
    forall o | o in T && o != m ensures Grown(view', leafCap, T[o]) && NodesOf(T[o]) !! NodesOf(t) {
      if T[o].root.Some? {
        OtherTree(view, view', NodesOf(T[m]), NodesOf(t), T[o].L, leafCap, T[o].root.value);
      }
    }
    forall n ensures n in Live(view') <==> Owned(T', n) {
      if n in NodesOf(t) {
        assert m in T' && n in NodesOf(T'[m]);
      }
      if n in Live(view') && n !in NodesOf(t) {
        assert n in Live(view) && n !in NodesOf(T[m]);
        var o :| o in T && n in NodesOf(T[o]);
        assert o != m && o in T' && n in NodesOf(T'[o]);
      }
      if Owned(T', n) && n !in NodesOf(t) {
        var o :| o in T' && n in NodesOf(T'[o]);
        assert o != m && n in NodesOf(T[o]);
        assert Owned(T, n);
        assert n !in NodesOf(T[m]);
      }
    }
  }

  /** A new empty tree joins. */
  lemma ForestJoin<M>(view: View, leafCap: nat, T: map<M, Tree>, m: M)
    requires ForestOk(view, leafCap, T) && m !in T
    ensures ForestOk(view, leafCap, T[m := Tree(None, [])])
  {
    var T' := T[m := Tree(None, [])];
    forall n ensures Owned(T, n) <==> Owned(T', n) {
      if Owned(T, n) {
        var o :| o in T && n in NodesOf(T[o]);
        assert o in T' && n in NodesOf(T'[o]);
      }
      if Owned(T', n) {
        var o :| o in T' && n in NodesOf(T'[o]);
        assert o in T && n in NodesOf(T[o]);
      }
    }
  }
}
