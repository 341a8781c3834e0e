/** The layers of the numbering, and what the finished map holds. */
module AstIdsLayers {
  import opened Prelude
  import opened AstIds
  import opened AstIdsOrder

  function Places(rows: seq<Row>): (r: seq<Place>)
    ensures |r| == |rows|
  {
    seq(|rows|, i requires 0 <= i < |rows| => rows[i].0)
  }

  lemma PlacesConcat(a: seq<Row>, b: seq<Row>)
    ensures Places(a + b) == Places(a) + Places(b)
  {
  }

  lemma {:induction false} FrontConcat(a: seq<Place>, b: seq<Place>)
    ensures Front(a + b) == Front(a) + Front(b)
    decreases Weight(a)
  {
    hide Weight, Children;
    if a == [] {
      assert a + b == b;
    } else {
      var y, rest := a[0], a[1..];
      assert a == [y] + rest && (a + b)[1..] == rest + b && (a + b)[0] == y;
      Smaller(y, rest);
      if y.node.item {
        FrontConcat(rest, b);
      } else {
        assert Children(y) + (rest + b) == (Children(y) + rest) + b;
        FrontConcat(Children(y) + rest, b);
      }
    }
  }

  /** A layer is one walk over its places. */
  lemma {:induction false} FoundFront(q: seq<Row>)
    ensures Places(Found(q)) == Front(Places(q))
  {
    hide Front;
    if q == [] {
      FrontNone();
    } else {
      assert Places(q) == [q[0].0] + Places(q[1..]);
      FrontConcat([q[0].0], Places(q[1..]));
      FoundFront(q[1..]);
      PlacesConcat(Tagged(Front([q[0].0]), q[0].1), Found(q[1..]));
      assert Places(Tagged(Front([q[0].0]), q[0].1)) == Front([q[0].0]);
    }
  }

  lemma FrontNone()
    ensures Front([]) == []
  {
  }

  /** `id` is the number of the nearest item above `x`. */
  ghost predicate ParentOk(root: Node, rows: seq<Row>, x: Place, id: Option<Id>) {
    match id
    case None => Depth(root, x.path) == 0
    case Some(j) =>
      && j < |rows| && ItemAt(root, rows[j].0.path)
      && |rows[j].0.path| < |x.path| && rows[j].0.path == x.path[..|rows[j].0.path|]
      && Free(root, x.path[..|rows[j].0.path| + 1], x.path)
  }

  /** Layers come one after the other, and each is in document order. */
  ghost predicate Before(root: Node, p: Path, q: Path) {
    Depth(root, p) < Depth(root, q) || (Depth(root, p) == Depth(root, q) && Left(p, q))
  }

  /** Each row is an item with its parent before it, and the rows are in order. */
  ghost predicate RowsOk(root: Node, rows: seq<Row>) {
    && (forall i :: 0 <= i < |rows| ==>
         PlaceOk(root, rows[i].0) && rows[i].0.node.item && ParentOk(root, rows, rows[i].0, rows[i].1)
         && (rows[i].1.Some? ==> rows[i].1.value < i))
    && (forall i, j :: 0 <= i < j < |rows| ==> Before(root, rows[i].0.path, rows[j].0.path))
  }

  predicate ItemPlace(root: Node, x: Place) {
    PlaceOk(root, x) && x.node.item
  }

  /** `rows` holds each item above layer `m` once. */
  ghost predicate HoldsAbove(root: Node, rows: seq<Row>, m: nat) {
    forall x :: multiset(Places(rows))[x] == if ItemPlace(root, x) && Depth(root, x.path) < m then 1 else 0
  }

  /** Each item of layer `m` or below is below some place of `q`. */
  ghost predicate Covers(root: Node, q: seq<Row>, m: nat) {
    forall x :: ItemPlace(root, x) && Depth(root, x.path) >= m ==> exists i :: 0 <= i < |q| && q[i].0.path <= x.path
  }

  ghost predicate PlacedAt(root: Node, q: seq<Row>, m: nat, done: seq<Row>) {
    forall i :: 0 <= i < |q| ==> PlaceOk(root, q[i].0) && Depth(root, q[i].0.path) == m && ParentOk(root, done, q[i].0, q[i].1)
  }

  /** `q` is layer `m` to come, after the rows of the layers before it. */
  ghost predicate LayerOk(root: Node, q: seq<Row>, m: nat, done: seq<Row>) {
    PlacedAt(root, q, m, done) && Ordered(Places(q)) && Covers(root, q, m) && HoldsAbove(root, done, m) && RowsOk(root, done)
    && forall i :: 0 <= i < |done| ==> Depth(root, done[i].0.path) < m
  }

  /** A walk over a layer meets exactly the items of the layer. */
  lemma MetDepth(root: Node, q: seq<Row>, m: nat, done: seq<Row>, x: Place)
    requires LayerOk(root, q, m, done)
    ensures Met(root, Places(q), x) <==> ItemPlace(root, x) && Depth(root, x.path) == m
  {
    hide Free, Apart, HoldsAbove, RowsOk, ParentOk, PlaceOk, Depth;
    if Met(root, Places(q), x) {
      var i :| 0 <= i < |q| && Places(q)[i].path <= x.path && Free(root, Places(q)[i].path, x.path);
      assert Places(q)[i] == q[i].0;
      DepthFree(root, q[i].0.path, x.path);
    }
    if ItemPlace(root, x) && Depth(root, x.path) == m {
      var i :| 0 <= i < |q| && q[i].0.path <= x.path;
      DepthFree(root, q[i].0.path, x.path);
      assert Places(q)[i] == q[i].0;
    }
  }

  lemma FoundCount(root: Node, q: seq<Row>, m: nat, done: seq<Row>, x: Place)
    requires LayerOk(root, q, m, done)
    ensures multiset(Places(Found(q)))[x] == if ItemPlace(root, x) && Depth(root, x.path) == m then 1 else 0
  {
    hide Free, HoldsAbove, RowsOk, ParentOk, Depth, Apart, Covers, Ordered;
    FoundFront(q);
    OrderedApart(Places(q));
    FrontCount(root, Places(q), x);
    MetDepth(root, q, m, done, x);
  }

  /** The items of a layer are found in document order. */
  lemma FoundOrdered(q: seq<Row>)
    requires Ordered(Places(q))
    ensures Ordered(Places(Found(q)))
  {
    hide Ordered;
    FoundFront(q);
    FrontOrdered(Places(q));
  }

  // ---------------------------------------------------------------- parents

  /** A row found keeps the parent of the place it was found from. */
  lemma {:induction false} FoundFrom(root: Node, q: seq<Row>, k: nat) returns (i: nat)
    requires k < |Found(q)| && forall i :: 0 <= i < |q| ==> PlaceOk(root, q[i].0)
    ensures i < |q| && Found(q)[k].1 == q[i].1 && Met(root, [q[i].0], Found(q)[k].0)
    decreases |q|
  {
    hide Front, Met, PlaceOk;
    var front := Tagged(Front([q[0].0]), q[0].1);
    if k < |front| {
      i := 0;
      FrontCount(root, [q[0].0], front[k].0);
      assert front[k].0 == Front([q[0].0])[k];
      assert front[k].0 in multiset(Front([q[0].0]));
    } else {
      i := FoundFrom(root, q[1..], k - |front|);
      i := i + 1;
    }
  }

  /** The nearest item above stays the same down to an item that is met. */
  lemma ParentKept(root: Node, rows: seq<Row>, y: Place, id: Option<Id>, x: Place)
    requires ParentOk(root, rows, y, id) && y.path <= x.path && Free(root, y.path, x.path)
    ensures ParentOk(root, rows, x, id)
  {
    hide Depth, ItemAt;
    DepthFree(root, y.path, x.path);
    if id.Some? {
      var n := |rows[id.value].0.path|;
      assert x.path[..n] == y.path[..n] && x.path[..n + 1] == y.path[..n + 1];
      forall k | n + 1 <= k < |x.path| ensures !ItemAt(root, x.path[..k]) {
        if k < |y.path| { assert x.path[..k] == y.path[..k]; }
      }
    }
  }

  lemma ParentGrows(root: Node, rows: seq<Row>, more: seq<Row>, x: Place, id: Option<Id>)
    requires ParentOk(root, rows, x, id)
    ensures ParentOk(root, rows + more, x, id)
  {
  }

  lemma FoundParents(root: Node, q: seq<Row>, m: nat, done: seq<Row>, k: nat)
    requires LayerOk(root, q, m, done) && k < |Found(q)|
    ensures var (x, id) := Found(q)[k];
      ItemPlace(root, x) && Depth(root, x.path) == m && ParentOk(root, done, x, id)
  {
    hide Free, HoldsAbove, RowsOk, ParentOk, Depth, Apart, Covers, Found;
    var i := FoundFrom(root, q, k);
    var (x, id) := Found(q)[k];
    ParentKept(root, done, q[i].0, id, x);
    FoundCount(root, q, m, done, x);
    assert Places(Found(q))[k] == x;
    assert x in multiset(Places(Found(q)));
  }

  lemma FoundRows(root: Node, q: seq<Row>, m: nat, done: seq<Row>)
    requires LayerOk(root, q, m, done)
    ensures RowsOk(root, done + Found(q))
    ensures forall i :: 0 <= i < |done + Found(q)| ==> Depth(root, (done + Found(q))[i].0.path) < m + 1
  {
    hide Free, HoldsAbove, ParentOk, Depth, Covers, Found, PlaceOk, Left;
    var rows := done + Found(q);
    FoundOrdered(q);
    forall i | 0 <= i < |rows|
      ensures ItemPlace(root, rows[i].0) && ParentOk(root, rows, rows[i].0, rows[i].1) && (rows[i].1.Some? ==> rows[i].1.value < i)
        && (if i < |done| then Depth(root, rows[i].0.path) < m else Depth(root, rows[i].0.path) == m)
    {
      if i < |done| {
        assert rows[i] == done[i];
      } else {
        FoundParents(root, q, m, done, i - |done|);
        ParentIndex(root, done, rows[i].0, rows[i].1);
      }
      ParentGrows(root, done, Found(q), rows[i].0, rows[i].1);
    }
    forall i, j | 0 <= i < j < |rows| ensures Before(root, rows[i].0.path, rows[j].0.path) {
      if j < |done| {
        assert rows[i] == done[i] && rows[j] == done[j];
      } else if i >= |done| {
        assert Places(Found(q))[i - |done|] == rows[i].0 && Places(Found(q))[j - |done|] == rows[j].0;
      }
    }
  }

  lemma ParentIndex(root: Node, rows: seq<Row>, x: Place, id: Option<Id>)
    requires ParentOk(root, rows, x, id)
    ensures id.Some? ==> id.value < |rows|
  {
  }

  // ---------------------------------------------------------------- the next layer

  /** Where a place of the next layer comes from. */
  lemma {:induction false} NextFrom(found: seq<Row>, base: Id, k: nat) returns (j: nat, d: nat)
    requires k < |Next(found, base)|
    ensures j < |found| && d < |Children(found[j].0)| && Next(found, base)[k] == (Children(found[j].0)[d], Some(base + j))
    decreases |found|
  {
    hide Children;
    var kids := Children(found[0].0);
    if k < |kids| {
      j, d := 0, k;
    } else {
      j, d := NextFrom(found[1..], base + 1, k - |kids|);
      j := j + 1;
    }
  }

  lemma {:induction false} NextHas(found: seq<Row>, base: Id, j: nat, d: nat) returns (k: nat)
    requires j < |found| && d < |Children(found[j].0)|
    ensures k < |Next(found, base)| && Next(found, base)[k].0 == Children(found[j].0)[d]
    decreases |found|
  {
    hide Children;
    if j == 0 {
      k := d;
    } else {
      k := NextHas(found[1..], base + 1, j - 1, d);
      k := k + |Children(found[0].0)|;
    }
  }

  /** The next layer is in document order, too. */
  lemma {:induction false} NextOrdered(found: seq<Row>, base: Id)
    requires Ordered(Places(found))
    ensures Ordered(Places(Next(found, base)))
  {
    hide Children, Left;
    if found != [] {
      var y, rest := found[0].0, Next(found[1..], base + 1);
      var kids := Tagged(Children(y), Some(base));
      assert Places(found) == [y] + Places(found[1..]);
      OrderedTail(y, Places(found[1..]));
      NextOrdered(found[1..], base + 1);
      forall i | 0 <= i < |rest| ensures Left(y.path, Places(rest)[i].path) {
        var j, d := NextFrom(found[1..], base + 1, i);
        PathOfChild(found[1..][j].0, d);
        LeftBelow(y.path, Places(found[1..])[j].path, y.path, Places(rest)[i].path);
      }
      OrderedChildren(y, Places(rest));
      PlacesConcat(kids, rest);
      assert Places(kids) == Children(y);
    }
  }

  lemma CountTwice<T>(s: seq<T>, i: nat, j: nat)
    requires i < j < |s| && s[i] == s[j]
    ensures multiset(s)[s[i]] >= 2
  {
    assert s == s[..j] + s[j..];
    assert multiset(s) == multiset(s[..j]) + multiset(s[j..]);
    assert s[..j][i] == s[i] && s[j..][0] == s[j];
  }

  /** A deep position is below an item of each layer above it. */
  lemma {:induction false} DepthReach(root: Node, p: Path, m: nat) returns (k: nat)
    requires Depth(root, p) > m
    ensures k < |p| && ItemAt(root, p[..k]) && Depth(root, p[..k]) == m
    decreases |p|
  {
    var p' := p[..|p| - 1];
    if Depth(root, p') > m {
      k := DepthReach(root, p', m);
      assert p'[..k] == p[..k];
    } else {
      k := |p| - 1;
    }
  }

  lemma NextCovers(root: Node, q: seq<Row>, m: nat, done: seq<Row>)
    requires LayerOk(root, q, m, done)
    ensures Covers(root, Next(Found(q), |done|), m + 1)
  {
    hide Free, HoldsAbove, RowsOk, ParentOk, Depth, Found, LayerOk, Next, Children;
    var next := Next(Found(q), |done|);
    forall x | ItemPlace(root, x) && Depth(root, x.path) >= m + 1 ensures exists i :: 0 <= i < |next| && next[i].0.path <= x.path {
      var k := DepthReach(root, x.path, m);
      SubAbove(root, x.path, k);
      var y := Place(x.path[..k], Sub(root, x.path[..k]).value);
      FoundCount(root, q, m, done, y);
      assert y in multiset(Places(Found(q)));
      var j :| 0 <= j < |Found(q)| && Places(Found(q))[j] == y;
      ChildrenOk(root, y);
      var i := NextHas(Found(q), |done|, j, x.path[k]);
      assert next[i].0.path == x.path[..k + 1];
    }
  }

  lemma NextPlaced(root: Node, q: seq<Row>, m: nat, done: seq<Row>)
    requires LayerOk(root, q, m, done)
    ensures PlacedAt(root, Next(Found(q), |done|), m + 1, done + Found(q))
  {
    hide HoldsAbove, RowsOk, Found, LayerOk, Next, Children, Covers, Depth;
    var next, rows := Next(Found(q), |done|), done + Found(q);
    forall i | 0 <= i < |next| ensures PlaceOk(root, next[i].0) && Depth(root, next[i].0.path) == m + 1 && ParentOk(root, rows, next[i].0, next[i].1) {
      var j, d := NextFrom(Found(q), |done|, i);
      FoundParents(root, q, m, done, j);
      var y := Found(q)[j].0;
      assert rows[|done| + j].0 == y;
      ChildrenOk(root, y);
      assert (y.path + [d])[..|y.path|] == y.path;
    }
  }

  lemma FoundHolds(root: Node, q: seq<Row>, m: nat, done: seq<Row>)
    requires LayerOk(root, q, m, done)
    ensures HoldsAbove(root, done + Found(q), m + 1)
  {
    hide RowsOk, Found, Covers, Depth, ItemPlace;
    var rows := done + Found(q);
    PlacesConcat(done, Found(q));
    forall x ensures multiset(Places(rows))[x] == if ItemPlace(root, x) && Depth(root, x.path) < m + 1 then 1 else 0 {
      FoundCount(root, q, m, done, x);
      assert multiset(Places(rows)) == multiset(Places(done)) + multiset(Places(Found(q)));
    }
  }

  /** One layer done, the next one is ready. */
  lemma LayerStep(root: Node, q: seq<Row>, m: nat, done: seq<Row>)
    requires LayerOk(root, q, m, done)
    ensures LayerOk(root, Next(Found(q), |done|), m + 1, done + Found(q))
  {
    hide RowsOk, Found, Next, Covers, Depth, ItemPlace, HoldsAbove, PlacedAt, Ordered, PlaceOk;
    FoundRows(root, q, m, done);
    FoundHolds(root, q, m, done);
    NextPlaced(root, q, m, done);
    NextCovers(root, q, m, done);
    FoundOrdered(q);
    NextOrdered(Found(q), |done|);
  }

  /** All rows: each item once, each with its nearest item above as parent, layer after layer, and each layer in document order. */
  ghost predicate Complete(root: Node, rows: seq<Row>) {
    RowsOk(root, rows) && forall x :: multiset(Places(rows))[x] == if ItemPlace(root, x) then 1 else 0
  }

  lemma {:induction false} RowsComplete(root: Node, q: seq<Row>, m: nat, done: seq<Row>)
    requires LayerOk(root, q, m, done)
    ensures Complete(root, done + Rows(q, |done|))
    decreases LayerWeight(q)
  {
    hide LayerOk, RowsOk, Found, Next, Depth, ItemPlace, LayerWeight;
    if q == [] {
      NothingLeft(root, m, done);
      assert done + Rows(q, |done|) == done;
    } else {
      LayerSmaller(q, |done|);
      LayerStep(root, q, m, done);
      RowsComplete(root, Next(Found(q), |done|), m + 1, done + Found(q));
      assert done + Found(q) + Rows(Next(Found(q), |done|), |done + Found(q)|) == done + Rows(q, |done|);
    }
  }

  lemma NothingLeft(root: Node, m: nat, done: seq<Row>)
    requires LayerOk(root, [], m, done)
    ensures Complete(root, done)
  {
    hide RowsOk, Depth, ItemPlace, ParentOk, PlacedAt;
  }

  /** The map of a tree gives every item exactly one number, and its parent is the nearest item above it, with a smaller number. */
  lemma NumberingComplete(root: Node)
    ensures Complete(root, RowsOf(root))
  {
    var q := [(Place([], root), None)];
    FirstLayer(root);
    RowsComplete(root, q, 0, []);
    assert [] + Rows(q, 0) == RowsOf(root);
  }

  lemma FirstLayer(root: Node)
    ensures LayerOk(root, [(Place([], root), None)], 0, [])
  {
    var q: seq<Row> := [(Place([], root), None)];
    assert Places(q) == [Place([], root)] && q[0].0.path == [];
    assert Places([]) == [];
    forall x | ItemPlace(root, x) ensures exists i :: 0 <= i < |q| && q[i].0.path <= x.path {
      assert q[0].0.path <= x.path;
    }
  }
}
