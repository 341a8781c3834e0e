/** Iterators over the entries of a map, in both directions. */
module BForestIter {
  import opened Prelude
  import opened BForestLevels
  import opened BForestPool
  import opened BForestPathTheory
  import opened BForestPath
  import opened BForestRemoveEntry
  import opened BForestModel
  import opened BForestMap
  import opened BForestOps

  /** Forward iteration; `root` says that the first entry is still to be visited. */
  class Iter {
    var root: Option<Node>
    const forest: Forest
    const path: Path
    ghost const target: Map
    /** Number of entries returned so far. */
    ghost var done: nat

    ghost function Ents(): Level
      reads this, forest
    {
      if target in forest.trees then Entries(forest.trees[target]) else []
    }

    ghost predicate Valid()
      reads this, path, path.Repr(), forest, forest.pool, forest.pool.Repr, forest.trees.Keys
    {
      && InForest(target, forest) && this !in forest.pool.Repr && path.Valid() && path.Repr() !! forest.pool.Repr
      && done <= |Ents()|
      && (root.Some? ==> done == 0 && path.size == 0 && root == forest.trees[target].root)
      && (root.None? && path.size == 0 ==> done == |Ents()|)
      && (root.None? && path.size > 0 ==>
        && forest.trees[target].root.Some? && path.OnEntry(forest.pool.view, forest.trees[target].L)
        && path.size < |path.pos| && done == path.pos[path.size] + 1)
    }

    constructor (m: Map, forest: Forest)
      requires InForest(m, forest)
      ensures Valid() && target == m && this.forest == forest && done == 0 && fresh(path.Repr())
    {
      root := m.root;
      this.forest := forest;
      path := new Path();
      target := m;
      done := 0;
      new;
      RootFacts(m, forest);
    }

    method Next() returns (r: Option<(Key, Value)>)
      requires Valid()
      modifies this, path, path.node, path.entry
      ensures Valid()
      ensures old(done) < |Ents()| ==> done == old(done) + 1 && r.Some? && Ents()[old(done)] == Entry(r.value.0, r.value.1)
      ensures old(done) == |Ents()| ==> r == None && done == old(done)
    {
      hide ForestOk, TreeOk, NodePool.Valid, Sorted, Expand, KidsOf, Offset, PathTo;
      RootFacts(target, forest);
      ghost var t := forest.trees[target];
      match root {
        case Some(n) =>
          root := None;
          var key, value := path.First(n, forest.pool, t.L);
          r := Some((key, value));
        case None =>
          r := path.Next(forest.pool, t.L, if t.root.Some? then t.root.value else 0);
      }
      if r.Some? {
        done := done + 1;
      }
    }
  }

  /** Backward iteration. */
  class RevIter {
    const root: Option<Node>
    const forest: Forest
    const path: Path
    ghost const target: Map
    ghost var done: nat

    ghost function Ents(): Level
      reads this, forest
    {
      if target in forest.trees then Entries(forest.trees[target]) else []
    }

    ghost predicate Valid()
      reads this, path, path.Repr(), forest, forest.pool, forest.pool.Repr, forest.trees.Keys
    {
      && InForest(target, forest) && this !in forest.pool.Repr && path.Valid() && path.Repr() !! forest.pool.Repr
      && done <= |Ents()| && root == forest.trees[target].root
      && (path.size == 0 ==> done == 0)
      && (path.size > 0 ==>
        && root.Some? && path.OnEntry(forest.pool.view, forest.trees[target].L)
        && path.size < |path.pos| && path.pos[path.size] == |Ents()| - done)
    }

    constructor (m: Map, forest: Forest)
      requires InForest(m, forest)
      ensures Valid() && target == m && this.forest == forest && done == 0 && fresh(path.Repr())
    {
      root := m.root;
      this.forest := forest;
      path := new Path();
      target := m;
      done := 0;
      new;
      RootFacts(m, forest);
    }

    method Next() returns (r: Option<(Key, Value)>)
      requires Valid()
      modifies this, path, path.node, path.entry
      ensures Valid()
      ensures old(done) < |Ents()| ==>
        done == old(done) + 1 && r.Some? && Ents()[|Ents()| - done] == Entry(r.value.0, r.value.1)
      ensures old(done) == |Ents()| ==> r == None && done == old(done)
    {
      hide ForestOk, TreeOk, NodePool.Valid, Sorted, Expand, KidsOf, Offset, PathTo;
      RootFacts(target, forest);
      ghost var t := forest.trees[target];
      if root.None? {
        return None;
      }
      HasEntry(forest.pool.view, t.L, forest.pool.leafCap, root.value);
      r := path.Prev(root.value, forest.pool, t.L);
      if r.Some? {
        done := done + 1;
      }
    }
  }

  /** A tree with a root has an entry. */
  lemma HasEntry(view: View, L: seq<Level>, leafCap: nat, root: Node)
    requires TreeOk(view, L, leafCap, root)
    ensures |L[|L| - 1]| > 0
  {
    hide Expand, KidsOf, LevelSound, Linked;
    forall j | 0 <= j < |L| - 1 && j != -1 ensures NodeLevel(view, L, leafCap, j) {
    }
    LevelNonEmpty(view, L, leafCap, |L| - 1);
  }

  lemma EntriesOnly(s: Level)
    requires Sorted(s)
    ensures forall i :: 0 <= i < |s| ==> s[i].Entry?
  {
  }

  /** The keys and values of a list of entries. */
  ghost function Pairs(s: Level): seq<(Key, Value)>
    requires forall i :: 0 <= i < |s| ==> s[i].Entry?
  {
    seq(|s|, i requires 0 <= i < |s| => (s[i].key, s[i].value))
  }

  ghost function Backwards<T>(s: seq<T>): seq<T> {
    seq(|s|, i requires 0 <= i < |s| => s[|s| - 1 - i])
  }

  /** Forward iteration yields all entries in ascending order of their keys, and then nothing more. */
  method Collect(m: Map, forest: Forest) returns (r: seq<(Key, Value)>, rest: Option<(Key, Value)>)
    requires InForest(m, forest)
    ensures Sorted(Entries(forest.trees[m])) && r == Pairs(Entries(forest.trees[m])) && rest == None
  {
    hide ForestOk, TreeOk, NodePool.Valid, Forest.Valid, Iter.Valid, Sorted;
    RootFacts(m, forest);
    EntriesOnly(Entries(forest.trees[m]));
    var it := new Iter(m, forest);
    ghost var s := it.Ents();
    r := [];
    var next := it.Next();
    while next.Some?
      invariant it.Valid() && it.forest == forest && it.target == m && fresh(it) && fresh(it.path.Repr()) && it.Ents() == s
      invariant |r| <= |s| && r == Pairs(s)[..|r|]
      invariant next.Some? ==> |r| < |s| && it.done == |r| + 1 && s[|r|] == Entry(next.value.0, next.value.1)
      invariant next.None? ==> |r| == |s| == it.done
      decreases |s| - |r|
    {
      r := r + [next.value];
      next := it.Next();
    }
    rest := it.Next();
  }

  /** Backward iteration yields the exact reverse. */
  method CollectBackwards(m: Map, forest: Forest) returns (r: seq<(Key, Value)>, rest: Option<(Key, Value)>)
    requires InForest(m, forest)
    ensures Sorted(Entries(forest.trees[m])) && r == Backwards(Pairs(Entries(forest.trees[m]))) && rest == None
  {
    hide ForestOk, TreeOk, NodePool.Valid, Forest.Valid, RevIter.Valid, Sorted;
    RootFacts(m, forest);
    EntriesOnly(Entries(forest.trees[m]));
    var it := new RevIter(m, forest);
    ghost var s := it.Ents();
    r := [];
    var next := it.Next();
    while next.Some?
      invariant it.Valid() && it.forest == forest && it.target == m && fresh(it) && fresh(it.path.Repr()) && it.Ents() == s
      invariant |r| <= |s| && r == Backwards(Pairs(s))[..|r|]
      invariant next.Some? ==> |r| < |s| && it.done == |r| + 1 && s[|s| - 1 - |r|] == Entry(next.value.0, next.value.1)
      invariant next.None? ==> |r| == |s| == it.done
      decreases |s| - |r|
    {
      r := r + [next.value];
      next := it.Next();
    }
    rest := it.Next();
  }

  /** The order of iteration depends on what a map holds, and not on how it came to hold it. */
  lemma SameOrder(s: Level, t: Level)
    requires Sorted(s) && Sorted(t) && MapOf(s) == MapOf(t)
    ensures Pairs(s) == Pairs(t)
  {
    hide Sorted, MapOf, Pairs;
    MapDetermines(s, t);
  }
}
