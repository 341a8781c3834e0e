/** Maps that share one forest, and the cursors that work on them. */
module BForestMap {
  import opened Prelude
  import opened BForestLevels
  import opened BForestPool
  import opened BForestPathTheory
  import opened BForestPath
  import opened BForestFrame
  import opened BForestInsertTheory
  import opened BForestInsert
  import opened BForestRemoveEntry
  import opened BForestTrees
  import opened BForestModel

  /** A map is no more than the root of its tree. */
  class Map {
    var root: Option<Node>

    constructor ()
      ensures root == None
    {
      root := None;
    }

    predicate IsEmpty()
      reads this
    {
      root.None?
    }
  }

  /** The finite map that a tree stands for. */
  ghost function Model(t: Tree): map<Key, Value> {
    if Sorted(Entries(t)) then MapOf(Entries(t)) else map[]
  }

  /** The pool and, for the proof only, the trees of the maps that live in it. */
  class Forest {
    const pool: NodePool
    ghost var trees: map<Map, Tree>

    ghost predicate Rooted(m: Map)
      requires m in trees
      reads this, pool, m
    {
      m !in pool.Repr && m.root == trees[m].root
    }

    ghost predicate Valid()
      reads this, pool, pool.Repr, trees.Keys
    {
      && pool.Valid() && this !in pool.Repr
      && ForestOk(pool.view, pool.leafCap, trees)
      && forall m :: m in trees ==> Rooted(m)
    }

    /** An empty forest whose leaves hold `leafCap` pairs: 7 for maps, 15 for sets. */
    constructor (leafCap: nat)
      requires leafCap == MAP_LEAF || leafCap == SET_LEAF
      ensures Valid() && fresh(pool) && fresh(pool.Repr) && trees == map[] && pool.leafCap == leafCap
    {
      pool := new NodePool(leafCap);
      trees := map[];
      new;
      assert Live(pool.view) == {};
    }

    /** From now on the forest accounts for the empty map `m`. */
    ghost method Adopt(m: Map)
      requires Valid() && m !in trees && m.root == None && m !in pool.Repr
      modifies this`trees
      ensures Valid() && trees == old(trees)[m := Tree(None, [])]
    {
      ForestJoin(pool.view, pool.leafCap, trees, m);
      trees := trees[m := Tree(None, [])];
      forall o | o in trees ensures Rooted(o) {
        if o != m { assert old(Rooted(o)); }
      }
    }

    /** Clear all maps of the forest at once; they are no longer to be used. */
    method Clear()
      requires Valid()
      modifies this, pool
      ensures Valid() && trees == map[] && Live(pool.view) == {}
    {
      pool.Clear();
      trees := map[];
    }

    /** The tree of `m` has become `t`. */
    ghost method Commit(m: Map, t: Tree, view: View)
      requires pool.Valid() && this !in pool.Repr && m in trees
      requires ForestOk(view, pool.leafCap, trees)
      requires forall o :: o in trees && o != m ==> Rooted(o)
      requires m !in pool.Repr && m.root == t.root
      requires Replaced(view, pool.view, NodesOf(trees[m]), NodesOf(t)) && Grown(pool.view, pool.leafCap, t)
      modifies this`trees
      ensures Valid() && trees == old(trees)[m := t]
    {
      ForestStep(view, pool.view, pool.leafCap, trees, m, t);
      trees := trees[m := t];
      forall o | o in trees ensures Rooted(o) {
        if o != m { assert old(Rooted(o)); }
      }
    }
  }

  /** A position in a map: an entry, or off the end. */
  class Cursor {
    const target: Map
    const forest: Forest
    const path: Path

    ghost predicate Placed()
      reads this, path, path.Repr(), forest, forest.pool, target
    {
      && target in forest.trees && path.Valid()
      && target.root.Some? && forest.trees[target].root == target.root
      && path.node[0] == target.root.value && path.OnEntry(forest.pool.view, forest.trees[target].L)
    }

    ghost predicate Valid()
      reads this, path, path.Repr(), forest, forest.pool, forest.pool.Repr, forest.trees.Keys, target
    {
      && forest.Valid() && target in forest.trees
      && path.Valid() && path.Repr() !! forest.pool.Repr
      && (path.size > 0 ==> Placed())
    }

    ghost function Ents(): Level
      reads this, forest
    {
      if target in forest.trees then Entries(forest.trees[target]) else []
    }

    /** Index of the current entry; the number of entries when off the end. */
    ghost function Pos(): nat
      reads this, path, forest
    {
      if 0 < path.size < |path.pos| then path.pos[path.size] else |Ents()|
    }

    /** A cursor in the default position, off the end. */
    constructor (target: Map, forest: Forest)
      requires forest.Valid() && target in forest.trees
      ensures Valid() && this.target == target && this.forest == forest && fresh(path.Repr())
      ensures Pos() == |Ents()|
    {
      this.target := target;
      this.forest := forest;
      path := new Path();
    }

    lemma Facts()
      requires Valid()
      ensures Sorted(Ents()) && Pos() <= |Ents()|
      ensures path.size > 0 <==> Pos() < |Ents()|
      ensures target.root.None? ==> Ents() == [] && path.size == 0
      ensures target.root.Some? ==>
        && forest.trees[target].root == target.root && Grown(forest.pool.view, forest.pool.leafCap, forest.trees[target])
        && Ents() == forest.trees[target].L[|forest.trees[target].L| - 1]
      ensures target !in forest.pool.Repr && forest.trees[target].root == target.root
    {
      hide TreeOk, Expand, KidsOf, Offset, FreeListOk, AllIds;
      assert forest.Rooted(target);
      TreeLive(forest.pool.view, forest.pool.leafCap, forest.trees[target]);
      if path.size > 0 {
        path.AtLeaf(forest.pool.view, forest.trees[target].L, forest.pool.leafCap, target.root.value);
      }
    }

    /** Move to the next entry and return it. */
    method Next() returns (r: Option<(Key, Value)>)
      requires Valid()
      modifies path, path.node, path.entry
      ensures Valid()
      ensures Pos() == if old(Pos()) < |Ents()| then old(Pos()) + 1 else old(Pos())
      ensures r.Some? <==> Pos() < |Ents()|
      ensures r.Some? ==> Ents()[Pos()] == Entry(r.value.0, r.value.1)
    {
      hide TreeOk, ForestOk, Expand, KidsOf, Offset, Sorted, PathTo, FreeListOk;
      Facts();
      ghost var root := if target.root.Some? then target.root.value else 0;
      r := path.Next(forest.pool, forest.trees[target].L, root);
    }

    /** Move to the previous entry and return it; from off the end, to the last entry. */
    method Prev() returns (r: Option<(Key, Value)>)
      requires Valid()
      modifies path, path.node, path.entry
      ensures Valid()
      ensures old(Pos()) == 0 ==> r == None && Pos() == 0
      ensures old(Pos()) > 0 ==> Pos() == old(Pos()) - 1 < |Ents()| && r.Some? && Ents()[Pos()] == Entry(r.value.0, r.value.1)
    {
      hide TreeOk, ForestOk, Expand, KidsOf, Offset, Sorted, PathTo, FreeListOk;
      Facts();
      if target.root.Some? {
        r := path.Prev(target.root.value, forest.pool, forest.trees[target].L);
      } else {
        r := None;
      }
    }

    /** The pair under the cursor; `None` off the end. */
    method Current() returns (r: Option<(Key, Value)>)
      requires Valid()
      ensures Valid()
      ensures r.Some? <==> Pos() < |Ents()|
      ensures r.Some? ==> Ents()[Pos()] == Entry(r.value.0, r.value.1)
    {
      hide TreeOk, ForestOk, Expand, KidsOf, Offset, Sorted, PathTo, FreeListOk;
      Facts();
      if path.size == 0 {
        return None;
      }
      var key, value := path.Current(forest.pool, forest.trees[target].L, target.root.value);
      return Some((key, value));
    }

    /** Move to the entry of `key`, or else to the next larger entry. */
    method Goto(key: Key) returns (r: Option<Value>)
      requires Valid()
      modifies path, path.node, path.entry
      ensures Valid()
      ensures r.Some? ==> Pos() < |Ents()| && Ents()[Pos()] == Entry(key, r.value)
      ensures r.None? ==> FitsAt(Ents(), Pos(), key)
      ensures r == Lookup(Model(forest.trees[target]), key)
    {
      hide TreeOk, ForestOk, Expand, KidsOf, Offset, Sorted, PathTo, FreeListOk, MapOf, Model;
      Facts();
      r := None;
      if target.root.Some? {
        r := path.Find(key, target.root.value, forest.pool, forest.trees[target].L);
        if r.None? {
          path.Normalize(forest.pool, forest.trees[target].L, target.root.value);
        }
      }
      GotoAnswer(forest.trees[target], Pos(), key, r);
    }

    /** Move to the first entry. */
    method GotoFirst() returns (r: Option<Value>)
      requires Valid()
      modifies path, path.node, path.entry
      ensures Valid() && Pos() == 0
      ensures r.Some? <==> |Ents()| > 0
      ensures r.Some? ==> Ents()[0].Entry? && r.value == Ents()[0].value
    {
      hide TreeOk, ForestOk, Expand, KidsOf, Offset, Sorted, PathTo, FreeListOk;
      Facts();
      r := None;
      if target.root.Some? {
        var key, value := path.First(target.root.value, forest.pool, forest.trees[target].L);
        r := Some(value);
      }
    }

    /** Everything but the tree of the target map stays as it was. */
    twostate predicate OnlyTarget()
      requires target in old(forest.trees) && target in forest.trees
      reads this, forest
    {
      forest.trees == old(forest.trees)[target := forest.trees[target]]
    }

    /** Enter the new tree of the target map into the books of the forest. */
    ghost method Record(t: Tree, view: View, kept: map<Map, Tree>)
      requires forest.pool.Valid() && forest !in forest.pool.Repr && target in forest.trees && forest.trees == kept
      requires path.Valid() && path.Repr() !! forest.pool.Repr
      requires ForestOk(view, forest.pool.leafCap, kept)
      requires forall o :: o in kept && o != target ==> forest.Rooted(o)
      requires target !in forest.pool.Repr && target.root == t.root
      requires Replaced(view, forest.pool.view, NodesOf(kept[target]), NodesOf(t)) && Grown(forest.pool.view, forest.pool.leafCap, t)
      requires path.size > 0 ==> t.root.Some? && path.node[0] == t.root.value && path.OnEntry(forest.pool.view, t.L)
      modifies forest`trees
      ensures Valid() && forest.trees == kept[target := t]
    {
      hide TreeOk, ForestOk, Replaced, Grown;
      forest.Commit(target, t, view);
    }

    /** Overwrite the value under the cursor. */
    method SetVal(value: Value)
      requires Valid() && Pos() < |Ents()|
      modifies forest, forest.pool.Repr
      ensures Valid() && OnlyTarget() && forest.pool.Repr == old(forest.pool.Repr)
      ensures Pos() == old(Pos()) && old(Ents()[Pos()]).Entry? && Ents() == WithValue(old(Ents()), Pos(), value)
    {
      hide TreeOk, ForestOk, Expand, KidsOf, Offset, Sorted, PathTo, FreeListOk, Replaced, Live, AllIds;
      Facts();
      ghost var view, kept := forest.pool.view, forest.trees;
      ghost var L := kept[target].L;
      ghost var L' := SetValue(path, value, forest.pool, L, target.root.value);
      forall o | o in kept && o != target ensures forest.Rooted(o) { assert old(forest.Rooted(o)); }
      Record(Tree(target.root, L'), view, kept);
    }

    /** Insert the first pair into an empty map. */
    method InsertFirst(key: Key, value: Value)
      requires Valid() && target.root.None?
      modifies path, path.node, path.entry, target, forest, forest.pool.Repr
      ensures Valid() && OnlyTarget() && fresh(forest.pool.Repr - old(forest.pool.Repr))
      ensures Ents() == [Entry(key, value)] && Pos() == 0
    {
      hide TreeOk, ForestOk, Expand, KidsOf, Offset, Sorted, PathTo, FreeListOk, Replaced, Live, AllIds;
      Facts();
      ghost var view, kept := forest.pool.view, forest.trees;
      var root;
      ghost var L';
      root, L' := NewTree(path, key, value, forest.pool);
      target.root := Some(root);
      forall o | o in kept && o != target ensures forest.Rooted(o) { assert old(forest.Rooted(o)); }
      Record(Tree(Some(root), L'), view, kept);
    }

    /** The path stands where the missing `key` belongs, perhaps behind the last entry of a leaf. */
    ghost predicate AtGap(key: Key, q: nat)
      reads this, path, path.Repr(), forest, forest.pool, forest.pool.Repr, forest.trees.Keys, target
    {
      && forest.Valid() && target in forest.trees && target.root.Some? && forest.trees[target].root == target.root
      && path.Valid() && path.Repr() !! forest.pool.Repr && path.node[0] == target.root.value
      && path.AtCursor(forest.pool.view, forest.trees[target].L)
      && path.size < |path.pos| && path.pos[path.size] == q && FitsAt(Ents(), q, key)
      && (path.entry[path.size - 1] == 0 ==> path.AtFirst())
    }

    /** Insert a pair at the gap. */
    method InsertAtGap(key: Key, value: Value, ghost q: nat)
      requires AtGap(key, q) && q <= |Ents()| && |Ents()| < MAX_ENTRIES
      modifies path, path.node, path.entry, target, forest, forest.pool.Repr
      ensures Valid() && OnlyTarget() && fresh(forest.pool.Repr - old(forest.pool.Repr))
      ensures Ents() == InsertAt(old(Ents()), q, Entry(key, value)) && Pos() == q < |Ents()|
    {
      hide TreeOk, ForestOk, Expand, KidsOf, Offset, Sorted, FreeListOk, Replaced, Live, AllIds;
      ghost var view, kept := forest.pool.view, forest.trees;
      ghost var L, L' := kept[target].L, [];
      TargetGrown();
      var root;
      root, L' := BForestInsert.Insert(path, key, value, forest.pool, L, target.root.value);
      target.root := Some(root);
      forall o | o in kept && o != target ensures forest.Rooted(o) { assert old(forest.Rooted(o)); }
      Record(Tree(Some(root), L'), view, kept);
    }

    lemma TargetGrown()
      requires forest.Valid() && target in forest.trees
      ensures Grown(forest.pool.view, forest.pool.leafCap, forest.trees[target])
      ensures target !in forest.pool.Repr && forest.trees[target].root == target.root && Sorted(Ents())
    {
      hide TreeOk, Expand, KidsOf, Offset, FreeListOk, AllIds;
      assert forest.Rooted(target);
      TreeLive(forest.pool.view, forest.pool.leafCap, forest.trees[target]);
    }

    /** Insert a pair, or replace the value of a key that is there already. */
    method Insert(key: Key, value: Value) returns (r: Option<Value>)
      requires Valid() && |Ents()| < MAX_ENTRIES
      modifies path, path.node, path.entry, target, forest, forest.pool.Repr
      ensures Valid() && OnlyTarget() && fresh(forest.pool.Repr - old(forest.pool.Repr))
      ensures Model(forest.trees[target]) == old(Model(forest.trees[target]))[key := value]
      ensures r == Lookup(old(Model(forest.trees[target])), key)
      ensures Pos() < |Ents()| && Ents()[Pos()] == Entry(key, value)
    {
      hide TreeOk, ForestOk, Expand, KidsOf, Offset, Sorted, FreeListOk, Model, MapOf, Replaced, FitsAt;
      Facts();
      ghost var t := forest.trees[target];
      r := None;
      if target.root.None? {
        InsertFirst(key, value);
        ModelSingle(t, forest.trees[target], key, value);
      } else {
        r := path.Find(key, target.root.value, forest.pool, t.L);
        ghost var q := path.pos[path.size];
        if r.Some? {
          SetVal(value);
          ModelSet(t, forest.trees[target], q, key, r.value, value);
        } else {
          assert FitsAt(Ents(), q, key) by { FoundGap(t.L, q, key); }
          GotoAnswer(t, q, key, r);
          InsertAtGap(key, value, q);
          ModelGrow(t, forest.trees[target], q, key, value);
        }
      }
    }

    /** Remove the current entry and go on to the one after it. */
    method Remove() returns (r: Option<Value>)
      requires Valid()
      modifies path, path.node, path.entry, target, forest, forest.pool.Repr
      ensures Valid() && OnlyTarget() && forest.pool.Repr == old(forest.pool.Repr)
      ensures Pos() == old(Pos()) <= |old(Ents())|
      ensures old(Pos()) == old(|Ents()|) ==> r == None && Ents() == old(Ents()) && target.root == old(target.root)
      ensures old(Pos()) < old(|Ents()|) ==>
        old(Ents()[Pos()]).Entry? && r == Some(old(Ents()[Pos()]).value) && Ents() == RemoveAt(old(Ents()), old(Pos()))
    {
      hide TreeOk, ForestOk, Expand, KidsOf, Offset, Sorted, FreeListOk, Replaced, PathTo, Live, AllIds, Model, MapOf, Grown;
      Facts();
      var current := Current();
      if current.None? {
        assert forest.trees == old(forest.trees)[target := forest.trees[target]];
        return None;
      }
      r := Some(current.value.1);
      RemoveCurrent();
    }

    /** Remove the entry that the path is on. */
    method RemoveCurrent()
      requires Valid() && Pos() < |Ents()|
      modifies path, path.node, path.entry, target, forest, forest.pool.Repr
      ensures Valid() && OnlyTarget() && forest.pool.Repr == old(forest.pool.Repr)
      ensures Pos() == old(Pos()) && Ents() == RemoveAt(old(Ents()), old(Pos()))
    {
      hide TreeOk, ForestOk, Expand, KidsOf, Offset, Sorted, FreeListOk, Replaced, PathTo, Live, AllIds, Model, MapOf;
      Facts();
      ghost var view, kept := forest.pool.view, forest.trees;
      var root;
      ghost var L';
      root, L' := BForestRemoveEntry.Remove(path, forest.pool, kept[target].L, target.root.value);
      target.root := root;
      forall o | o in kept && o != target ensures forest.Rooted(o) { assert old(forest.Rooted(o)); }
      Record(Tree(root, if root.None? then [] else L'), view, kept);
    }
  }

  lemma FoundGap(L: seq<Level>, q: nat, key: Key)
    requires |L| > 0 && q <= |L[|L| - 1]|
    requires q > 0 ==> L[|L| - 1][q - 1].Entry? && L[|L| - 1][q - 1].key < key
    requires q < |L[|L| - 1]| ==> L[|L| - 1][q].Entry? && key < L[|L| - 1][q].key
    ensures FitsAt(L[|L| - 1], q, key)
  {
  }

  lemma ModelSingle(t: Tree, t': Tree, key: Key, value: Value)
    requires Entries(t) == [] && Entries(t') == [Entry(key, value)]
    ensures Model(t') == Model(t)[key := value] && key !in Model(t)
  {
    hide MapOf;
    assert Entries(t') == InsertAt(Entries(t), 0, Entry(key, value));
    MapInsert(Entries(t), 0, key, value);
    MapAbsent(Entries(t), 0, key);
  }

  lemma ModelGrow(t: Tree, t': Tree, q: nat, key: Key, value: Value)
    requires Sorted(Entries(t)) && FitsAt(Entries(t), q, key) && Entries(t') == InsertAt(Entries(t), q, Entry(key, value))
    ensures Sorted(Entries(t')) && Model(t') == Model(t)[key := value]
  {
    hide MapOf, Sorted;
    MapInsert(Entries(t), q, key, value);
  }

  lemma ModelSet(t: Tree, t': Tree, q: nat, key: Key, previous: Value, value: Value)
    requires Sorted(Entries(t)) && q < |Entries(t)| && Entries(t)[q] == Entry(key, previous)
    requires Entries(t') == WithValue(Entries(t), q, value)
    ensures Sorted(Entries(t')) && Model(t') == Model(t)[key := value] && Lookup(Model(t), key) == Some(previous)
  {
    hide MapOf, Sorted;
    MapUpdate(Entries(t), q, value);
    MapHas(Entries(t), q);
  }

  lemma ModelDrop(t: Tree, t': Tree, q: nat)
    requires Sorted(Entries(t)) && q < |Entries(t)| && Entries(t') == RemoveAt(Entries(t), q)
    ensures Entries(t)[q].Entry? && Sorted(Entries(t')) && Model(t') == Model(t) - {Entries(t)[q].key}
  {
    hide MapOf, Sorted;
    MapRemove(Entries(t), q);
  }

  /** What a search found, in terms of the finite map. */
  lemma GotoAnswer(t: Tree, q: nat, key: Key, r: Option<Value>)
    requires Sorted(Entries(t)) && q <= |Entries(t)|
    requires r.Some? ==> q < |Entries(t)| && Entries(t)[q] == Entry(key, r.value)
    requires r.None? ==> FitsAt(Entries(t), q, key)
    ensures r == Lookup(Model(t), key)
  {
    hide Sorted, MapOf;
    if r.Some? { MapHas(Entries(t), q); } else { MapAbsent(Entries(t), q, key); }
  }
}
