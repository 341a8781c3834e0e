/** Looking up the item around a node, and the lint levels that hold for an item. */
module AstIdsLookup {
  import opened Prelude
  import opened AstIds
  import opened AstIdsOrder
  import opened AstIdsLayers

  /** Item `j` is the innermost item at `p` or above. */
  ghost predicate Innermost(root: Node, rows: seq<Row>, p: Path, j: Id) {
    j < |rows| && rows[j].0.path <= p && ItemAt(root, rows[j].0.path)
    && forall k :: |rows[j].0.path| < k <= |p| ==> !ItemAt(root, p[..k])
  }

  /** Every item is in the map. */
  lemma ItemHasId(root: Node, rows: seq<Row>, x: Place) returns (j: Id)
    requires Complete(root, rows) && ItemPlace(root, x)
    ensures j < |rows| && rows[j].0 == x
  {
    hide RowsOk, ItemPlace;
    assert x in multiset(Places(rows));
    j :| 0 <= j < |Places(rows)| && Places(rows)[j] == x;
  }

  /** The map of a tree: each item has one number, its parent is the nearest item above, and numbers go by layer and then by document order. */
  method BuildMap(root: Node) returns (ids: AstIdMap)
    ensures fresh(ids) && ids.Valid() && Complete(root, ids.View())
  {
    hide RowsOf, Complete;
    ids := new AstIdMap();
    ids.FromSource(root);
    NumberingComplete(root);
  }

  /** The number of an item. */
  method ErasedAstId(ids: AstIdMap, root: Node, item: Place) returns (id: Id)
    requires ids.Valid() && ids.View() == RowsOf(root) && ItemPlace(root, item)
    ensures id < |RowsOf(root)| && RowsOf(root)[id].0 == item
  {
    ghost var rows := RowsOf(root);
    NumberingComplete(root);
    ghost var j := ItemHasId(root, rows, item);
    assert forall i :: 0 <= i < |rows| ==> rows[i].0 == ids.arena[i] by {
      assert forall i :: 0 <= i < |rows| ==> ids.View()[i].0 == ids.arena[i];
    }
    id := 0;
    while ids.arena[id] != item
      invariant id <= j < |ids.arena| && ids.arena[j] == item
      decreases j - id
    {
      id := id + 1;
    }
  }

  method NearestAstIdToNode(ids: AstIdMap, root: Node, p: Path) returns (r: Option<Id>)
    requires ids.Valid() && ids.View() == RowsOf(root) && Sub(root, p).Some?
    ensures match r
      case None => forall k :: 0 <= k <= |p| ==> !ItemAt(root, p[..k])
      case Some(j) => Innermost(root, RowsOf(root), p, j)
  {
    hide RowsOf;
    var q := p;
    assert p[..|p|] == p;
    while !Sub(root, q).value.item
      invariant q <= p && Sub(root, q).Some? && forall k :: |q| < k <= |p| ==> !ItemAt(root, p[..k])
      decreases |q|
    {
      assert q == p[..|q|];
      if q == [] {
        return None;
      }
      q := q[..|q| - 1];
    }
    var id := ErasedAstId(ids, root, Place(q, Sub(root, q).value));
    return Some(id);
  }

  // ---------------------------------------------------------------- lint levels

  type Level = nat

  predicate ParentsBefore(rows: seq<Row>) {
    forall i :: 0 <= i < |rows| && rows[i].1.Some? ==> rows[i].1.value < i
  }

  /** The level set for an item, or else for the nearest parent that has one. */
  function LevelOf(rows: seq<Row>, overwrites: map<Id, Level>, id: Id): Option<Level>
    requires id < |rows| && ParentsBefore(rows)
    decreases id
  {
    if id in overwrites then Some(overwrites[id])
    else if rows[id].1.None? then None
    else LevelOf(rows, overwrites, rows[id].1.value)
  }

  /** An item above another one is its parent or above its parent. */
  lemma AboveParent(root: Node, rows: seq<Row>, j: Id, id: Id)
    requires RowsOk(root, rows) && ParentsBefore(rows) && j < |rows| && id < |rows| && rows[j].0.path <= rows[id].0.path
    requires rows[j].0.path != rows[id].0.path
    ensures rows[id].1.Some? && rows[j].0.path <= rows[rows[id].1.value].0.path
  {
    hide Depth;
    var p, q := rows[j].0.path, rows[id].0.path;
    DepthFree(root, p, q);
    assert ItemAt(root, p) && q[..|p|] == p;
    assert ParentOk(root, rows, rows[id].0, rows[id].1);
    DepthFree(root, [], p);
    if rows[id].1.Some? {
      var n := |rows[rows[id].1.value].0.path|;
      assert q[..|p|] == p;
      assert !(n + 1 <= |p|);
    }
  }

  /** Item `j` has a level of its own and is at or above item `id`, and no item between the two has one. */
  ghost predicate Governs(rows: seq<Row>, overwrites: map<Id, Level>, j: Id, id: Id)
    requires id < |rows|
  {
    j < |rows| && j in overwrites && rows[j].0.path <= rows[id].0.path
    && forall i :: 0 <= i < |rows| && i in overwrites && rows[i].0.path <= rows[id].0.path ==> rows[i].0.path <= rows[j].0.path
  }

  /** Different numbers are for different positions. */
  lemma SameIndex(root: Node, rows: seq<Row>, i: Id, j: Id)
    requires Complete(root, rows) && i < |rows| && j < |rows| && rows[i].0.path == rows[j].0.path
    ensures i == j
  {
    hide Depth, ParentOk;
    var xs := Places(rows);
    assert ItemPlace(root, rows[i].0) && ItemPlace(root, rows[j].0);
    assert multiset(xs)[xs[i]] == 1;
    if i < j { CountTwice(xs, i, j); }
    if j < i { CountTwice(xs, j, i); }
  }

  /** `level` is that of the innermost item at or above item `id` that has one; none if no such item has one. */
  ghost predicate InnermostLevel(rows: seq<Row>, overwrites: map<Id, Level>, id: Id, level: Option<Level>)
    requires id < |rows|
  {
    match level
    case None => forall j :: 0 <= j < |rows| && rows[j].0.path <= rows[id].0.path ==> j !in overwrites
    case Some(l) => exists j :: Governs(rows, overwrites, j, id) && overwrites[j] == l
  }

  lemma CompleteParents(root: Node, rows: seq<Row>)
    requires Complete(root, rows)
    ensures ParentsBefore(rows)
  {
    hide ParentOk, Depth;
  }

  /** The level that holds for an item is that of the innermost item around it that has one. */
  lemma {:induction false} LevelMeans(root: Node, rows: seq<Row>, overwrites: map<Id, Level>, id: Id)
    requires Complete(root, rows) && id < |rows|
    ensures ParentsBefore(rows)
    ensures InnermostLevel(rows, overwrites, id, LevelOf(rows, overwrites, id))
    decreases id
  {
    hide RowsOk, Complete;
    CompleteParents(root, rows);
    if id in overwrites {
      assert Governs(rows, overwrites, id, id);
    } else {
      forall j | 0 <= j < |rows| && rows[j].0.path <= rows[id].0.path && j != id
        ensures rows[id].1.Some? && rows[j].0.path <= rows[rows[id].1.value].0.path
      {
        StrictlyAbove(root, rows, j, id);
      }
      if rows[id].1.Some? {
        var up := rows[id].1.value;
        ParentAbove(root, rows, id);
        LevelMeans(root, rows, overwrites, up);
        if LevelOf(rows, overwrites, up).Some? {
          var j :| Governs(rows, overwrites, j, up) && overwrites[j] == LevelOf(rows, overwrites, up).value;
          assert Governs(rows, overwrites, j, id);
        }
      }
    }
  }

  lemma StrictlyAbove(root: Node, rows: seq<Row>, j: Id, id: Id)
    requires Complete(root, rows) && j < |rows| && id < |rows| && rows[j].0.path <= rows[id].0.path && j != id && ParentsBefore(rows)
    ensures rows[id].1.Some? && rows[j].0.path <= rows[rows[id].1.value].0.path
  {
    hide RowsOk;
    if rows[j].0.path == rows[id].0.path {
      SameIndex(root, rows, j, id);
    } else {
      AboveParent(root, rows, j, id);
    }
  }

  lemma ParentAbove(root: Node, rows: seq<Row>, id: Id)
    requires Complete(root, rows) && id < |rows| && rows[id].1.Some? && ParentsBefore(rows)
    ensures rows[rows[id].1.value].0.path <= rows[id].0.path
  {
    assert ParentOk(root, rows, rows[id].0, rows[id].1);
  }

  /** The walk along the parents ends, and finds the level of the innermost item around `start` that has one. */
  method LintLvl(ids: AstIdMap, ghost root: Node, overwrites: map<Id, Level>, start: Id) returns (r: Option<Level>)
    requires ids.Valid() && ids.View() == RowsOf(root) && start < |ids.arena|
    ensures InnermostLevel(RowsOf(root), overwrites, start, r)
  {
    hide RowsOf, Complete, InnermostLevel;
    ghost var rows := RowsOf(root);
    NumberingComplete(root);
    LevelMeans(root, rows, overwrites, start);
    var id: Id := start;
    while true
      invariant id < |ids.arena| && LevelOf(rows, overwrites, id) == LevelOf(rows, overwrites, start)
      decreases id
    {
      if id in overwrites { return Some(overwrites[id]); }
      var parent := ids.parents[id];
      assert ids.View()[id].1 == parent;
      if parent.None? { return None; }
      id := parent.value;
    }
  }
}
