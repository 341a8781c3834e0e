/** Keeping the entries that a predicate accepts. */
module BForestRetain {
  import opened Prelude
  import opened BForestLevels
  import opened BForestPool
  import opened BForestPathTheory
  import opened BForestModel
  import opened BForestMap
  import opened BForestOps

  /** What a stateful predicate answers on its `n`-th call, and the value it leaves in the entry. */
  type Verdict = (nat, Key, Value) -> (bool, Value)

  /** The entries of `s` that are kept when the predicate sees them in order, starting with call `n`. */
  ghost function Retained(s: Level, f: Verdict, n: nat): Level {
    if s == [] then []
    else if s[0].Sub? then s
    else
      var (keep, value) := f(n, s[0].key, s[0].value);
      (if keep then [Entry(s[0].key, value)] else []) + Retained(s[1..], f, n + 1)
  }

  ghost predicate AnyAccepted(s: Level, f: Verdict, n: nat, x: Item) {
    exists i :: 0 <= i < |s| && Accepted(s, f, n, i, x)
  }

  /** Exactly the accepted entries are kept, with the value the predicate left in them. */
  lemma {:induction false} RetainedExactly(s: Level, f: Verdict, n: nat, x: Item)
    requires forall i :: 0 <= i < |s| ==> s[i].Entry?
    ensures x in Retained(s, f, n) <==> AnyAccepted(s, f, n, x)
    decreases |s|
  {
    if s != [] {
      var t := s[1..];
      RetainedExactly(t, f, n + 1, x);
      if AnyAccepted(t, f, n + 1, x) {
        var i :| 0 <= i < |t| && Accepted(t, f, n + 1, i, x);
        assert Accepted(s, f, n, i + 1, x);
      }
      if AnyAccepted(s, f, n, x) {
        var i :| 0 <= i < |s| && Accepted(s, f, n, i, x);
        if i > 0 { assert t[i - 1] == s[i] && Accepted(t, f, n + 1, i - 1, x); }
      }
      if f(n, s[0].key, s[0].value).0 && x == Entry(s[0].key, f(n, s[0].key, s[0].value).1) {
        assert Accepted(s, f, n, 0, x);
      }
    }
  }

  /** ... and they stay in order. */
  lemma {:induction false} RetainedSorted(s: Level, f: Verdict, n: nat)
    requires Sorted(s)
    ensures Sorted(Retained(s, f, n))
    decreases |s|
  {
    if s != [] {
      var t := s[1..];
      var r := Retained(t, f, n + 1);
      RetainedSorted(t, f, n + 1);
      forall i | 0 <= i < |r| ensures r[i].Entry? && s[0].key < r[i].key {
        RetainedExactly(t, f, n + 1, r[i]);
        assert r[i] in r;
        var j :| 0 <= j < |t| && Accepted(t, f, n + 1, j, r[i]);
        assert t[j] == s[j + 1];
      }
      FrontSorted(Entry(s[0].key, f(n, s[0].key, s[0].value).1), r);
    }
  }

  lemma FrontSorted(x: Item, r: Level)
    requires Sorted(r) && x.Entry? && forall i :: 0 <= i < |r| ==> r[i].Entry? && x.key < r[i].key
    ensures Sorted([x] + r) && [] + r == r
  {
  }

  /** `x` is entry `i` after the predicate has accepted it. */
  ghost predicate Accepted(s: Level, f: Verdict, n: nat, i: nat, x: Item)
    requires i < |s|
  {
    s[i].Entry? && f(n + i, s[i].key, s[i].value).0 && x == Entry(s[i].key, f(n + i, s[i].key, s[i].value).1)
  }

  ghost function Outcome(kept: Level, rest: Level, f: Verdict, n: nat): Level {
    kept + Retained(rest, f, n)
  }

  /** Offering one more entry does not change the outcome. */
  lemma RetainedStep(kept: Level, kept': Level, rest: Level, f: Verdict, n: nat, key: Key, value: Value)
    requires rest != [] && rest[0] == Entry(key, value)
    requires kept' == kept + if f(n, key, value).0 then [Entry(key, f(n, key, value).1)] else []
    ensures Outcome(kept', rest[1..], f, n + 1) == Outcome(kept, rest, f, n)
  {
  }

  /** `kept` is in front of the cursor, and `rest` has not been offered to the predicate yet. */
  ghost predicate Halfway(c: Cursor, kept: Level, rest: Level)
    reads c, c.path, c.forest
  {
    c.Ents() == kept + rest && c.Pos() == |kept|
  }

  /** Offer the current entry to the predicate, and keep or remove it. */
  method Offer(c: Cursor, f: Verdict, calls: nat, key: Key, value: Value, ghost kept: Level, ghost rest: Level) returns (ghost kept': Level)
    requires c.Valid() && Halfway(c, kept, rest) && rest != [] && rest[0] == Entry(key, value)
    modifies c.path, c.path.node, c.path.entry, c.target, c.forest, c.forest.pool.Repr
    ensures c.Valid() && c.OnlyTarget() && c.forest.pool.Repr == old(c.forest.pool.Repr)
    ensures Halfway(c, kept', rest[1..])
    ensures kept' == kept + if f(calls, key, value).0 then [Entry(key, f(calls, key, value).1)] else []
  {
    hide ForestOk, TreeOk, NodePool.Valid, Forest.Valid, Cursor.Valid, Sorted, PathTo;
    var (keep, changed) := f(calls, key, value);
    c.SetVal(changed);
    assert c.Ents() == kept + [Entry(key, changed)] + rest[1..];
    if keep {
      var next := c.Next();
      kept' := kept + [Entry(key, changed)];
    } else {
      var removed := c.Remove();
      kept' := kept + [];
      assert c.Ents() == kept + rest[1..];
    }
  }

  /** Offer all entries from the front of the map on. */
  method OfferAll(c: Cursor, f: Verdict)
    requires c.Valid() && c.Pos() == 0
    modifies c.path, c.path.node, c.path.entry, c.target, c.forest, c.forest.pool.Repr
    ensures c.Valid() && c.OnlyTarget() && c.forest.pool.Repr == old(c.forest.pool.Repr)
    ensures c.Ents() == Retained(old(c.Ents()), f, 0)
  {
    hide ForestOk, TreeOk, NodePool.Valid, Forest.Valid, Cursor.Valid, Sorted, Retained, PathTo, Outcome;
    ghost var s, trees0 := c.Ents(), c.forest.trees;
    ghost var kept: Level, rest: Level := [], s;
    var calls: nat := 0;
    RetainedAll(s, f);
    CursorForest(c);
    var current := c.Current();
    while current.Some?
      invariant c.Valid()
      invariant c.forest.pool.Repr == old(c.forest.pool.Repr)
      invariant c.target in c.forest.trees && c.forest.trees == trees0[c.target := c.forest.trees[c.target]]
      invariant Halfway(c, kept, rest)
      invariant Outcome(kept, rest, f, calls) == Retained(s, f, 0)
      invariant current.Some? <==> rest != []
      invariant current.Some? ==> rest[0] == Entry(current.value.0, current.value.1)
      decreases |rest|
    {
      ghost var trees1 := c.forest.trees;
      ghost var kept' := Offer(c, f, calls, current.value.0, current.value.1, kept, rest);
      RetainedStep(kept, kept', rest, f, calls, current.value.0, current.value.1);
      kept, rest := kept', rest[1..];
      calls := calls + 1;
      UpdateTwice(trees0, trees1, c.forest.trees, c.target);
      current := c.Current();
    }
    RetainedNone(kept, f, calls);
  }

  /** Remove the entries that the predicate rejects, offering every entry once and in order. */
  method Retain(m: Map, forest: Forest, f: Verdict)
    requires InForest(m, forest)
    modifies m, forest, forest.pool.Repr
    ensures InForest(m, forest) && forest.pool.Repr == old(forest.pool.Repr)
    ensures forest.trees == old(forest.trees)[m := forest.trees[m]]
    ensures Entries(forest.trees[m]) == Retained(old(Entries(forest.trees[m])), f, 0)
    ensures Filtered(old(Entries(forest.trees[m])), f, Model(forest.trees[m]))
  {
    hide ForestOk, TreeOk, NodePool.Valid, Forest.Valid, Cursor.Valid, Sorted, Retained, PathTo, Filtered, MapOf;
    var c := new Cursor(m, forest);
    RootFacts(m, forest);
    RetainedFilters(Entries(forest.trees[m]), f);
    var first := c.GotoFirst();
    OfferAll(c, f);
    CursorForest(c);
  }

  /** `N` holds the value that `f` left for each entry of `s` it accepted, and nothing else. */
  ghost predicate Filtered(s: Level, f: Verdict, N: map<Key, Value>) {
    && (forall i :: 0 <= i < |s| ==> s[i].Entry?)
    && (forall i :: 0 <= i < |s| ==>
         Lookup(N, s[i].key) == if f(i, s[i].key, s[i].value).0 then Some(f(i, s[i].key, s[i].value).1) else None)
    && (forall key :: key in N ==> exists i :: 0 <= i < |s| && s[i].Entry? && s[i].key == key)
  }

  lemma RetainedFilters(s: Level, f: Verdict)
    requires Sorted(s)
    ensures Sorted(Retained(s, f, 0)) && Filtered(s, f, MapOf(Retained(s, f, 0)))
  {
    hide Retained, MapOf;
    var r := Retained(s, f, 0);
    RetainedSorted(s, f, 0);
    forall key | key in MapOf(r) ensures exists i :: 0 <= i < |s| && Accepted(s, f, 0, i, Entry(key, MapOf(r)[key])) {
      var j := MapIndex(r, key);
      RetainedExactly(s, f, 0, r[j]);
    }
    forall i | 0 <= i < |s| && f(i, s[i].key, s[i].value).0 ensures Lookup(MapOf(r), s[i].key) == Some(f(i, s[i].key, s[i].value).1) {
      var x := Entry(s[i].key, f(i, s[i].key, s[i].value).1);
      assert Accepted(s, f, 0, i, x);
      RetainedExactly(s, f, 0, x);
      var j :| 0 <= j < |r| && r[j] == x;
      MapHas(r, j);
    }
  }

  lemma RetainedNone(kept: Level, f: Verdict, n: nat)
    ensures Outcome(kept, [], f, n) == kept == kept + []
  {
  }

  lemma RetainedAll(s: Level, f: Verdict)
    ensures Outcome([], s, f, 0) == Retained(s, f, 0) && [] + s == s
  {
  }

  lemma UpdateTwice<K, V>(a: map<K, V>, b: map<K, V>, c: map<K, V>, k: K)
    requires k in b && k in c && b == a[k := b[k]] && c == b[k := c[k]]
    ensures c == a[k := c[k]]
  {
  }

  lemma CursorForest(c: Cursor)
    requires c.Valid()
    ensures InForest(c.target, c.forest)
  {
  }
}
