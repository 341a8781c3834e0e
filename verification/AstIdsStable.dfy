/** Numbers of outer items do not depend on what is inside inner items; and how numbers are looked up. */
module AstIdsStable {
  import opened Prelude
  import opened AstIds
  import opened AstIdsOrder
  import opened AstIdsLayers

  /** A tree without the insides of its items of layer `k`. */
  function Cut(n: Node, k: nat): (r: Node)
    ensures r.kind == n.kind && r.item == n.item
    ensures !(n.item && k == 0) ==> |r.children| == |n.children|
  {
    if n.item && k == 0 then n.(children := [])
    else n.(children := seq(|n.children|, i requires 0 <= i < |n.children| => Cut(n.children[i], if n.item then k - 1 else k)))
  }

  /** The same position and kind, and the same insides as far as `k` layers reach. */
  ghost predicate Alike(x: Place, y: Place, k: nat) {
    x.path == y.path && Cut(x.node, k) == Cut(y.node, k)
  }

  ghost predicate AllAlike(xs: seq<Place>, ys: seq<Place>, k: nat) {
    |xs| == |ys| && forall i :: 0 <= i < |xs| ==> Alike(xs[i], ys[i], k)
  }

  ghost predicate RowsAlike(a: seq<Row>, b: seq<Row>, k: nat) {
    |a| == |b| && forall i :: 0 <= i < |a| ==> Alike(a[i].0, b[i].0, k) && a[i].1 == b[i].1
  }

  lemma AlikeChildren(x: Place, y: Place, k: nat)
    requires Alike(x, y, k) && (x.node.item ==> k > 0)
    ensures AllAlike(Children(x), Children(y), if x.node.item then k - 1 else k)
  {
    var k' := if x.node.item then k - 1 else k;
    assert |Children(x)| == |Cut(x.node, k).children| == |Children(y)|;
    forall i | 0 <= i < |Children(x)| ensures Alike(Children(x)[i], Children(y)[i], k') {
      assert Cut(x.node, k).children[i] == Cut(y.node, k).children[i];
    }
  }

  lemma AlikeItem(x: Place, y: Place, k: nat)
    requires Alike(x, y, k)
    ensures x.node.item == y.node.item && x.node.kind == y.node.kind
  {
  }

  /** Walks over trees that are alike find items that are alike. */
  lemma {:induction false} FrontAlike(xs: seq<Place>, ys: seq<Place>, k: nat)
    requires AllAlike(xs, ys, k)
    ensures AllAlike(Front(xs), Front(ys), k)
    decreases Weight(xs)
  {
    hide Weight, Children, Alike;
    if xs != [] {
      var x, y := xs[0], ys[0];
      assert xs == [x] + xs[1..] && ys == [y] + ys[1..];
      AlikeItem(x, y, k);
      Smaller(x, xs[1..]);
      if x.node.item {
        FrontAlike(xs[1..], ys[1..], k);
      } else {
        AlikeChildren(x, y, k);
        FrontAlike(Children(x) + xs[1..], Children(y) + ys[1..], k);
      }
    }
  }

  lemma {:induction false} FoundAlike(a: seq<Row>, b: seq<Row>, k: nat)
    requires RowsAlike(a, b, k)
    ensures RowsAlike(Found(a), Found(b), k)
  {
    hide Front, Alike;
    if a != [] {
      FrontAlike([a[0].0], [b[0].0], k);
      FoundAlike(a[1..], b[1..], k);
    }
  }

  lemma {:induction false} NextAlike(a: seq<Row>, b: seq<Row>, base: Id, k: nat)
    requires RowsAlike(a, b, k + 1) && forall i :: 0 <= i < |a| ==> a[i].0.node.item
    ensures RowsAlike(Next(a, base), Next(b, base), k)
  {
    hide Children, Alike;
    if a != [] {
      AlikeChildren(a[0].0, b[0].0, k + 1);
      NextAlike(a[1..], b[1..], base + 1, k);
    }
  }

  /** The rows of layer `m` and later ones are no higher than layer `m`. */
  lemma {:induction false} RowsDepth(root: Node, q: seq<Row>, m: nat, done: seq<Row>, i: nat)
    requires LayerOk(root, q, m, done) && i < |Rows(q, |done|)|
    ensures Depth(root, Rows(q, |done|)[i].0.path) >= m
    decreases LayerWeight(q)
  {
    hide LayerOk, Found, Next, Depth, LayerWeight;
    LayerSmaller(q, |done|);
    LayerStep(root, q, m, done);
    if i < |Found(q)| {
      FoundParents(root, q, m, done, i);
    } else {
      RowsDepth(root, Next(Found(q), |done|), m + 1, done + Found(q), i - |Found(q)|);
    }
  }

  /** Two rows for the same item, as far as a reader of the map can tell. */
  ghost predicate SameRow(a: Row, b: Row) {
    a.0.path == b.0.path && a.0.node.kind == b.0.node.kind && a.1 == b.1
  }

  /** From layer `m` on, rows agree down to `k` layers more. */
  lemma {:induction false} RowsAgree(root: Node, root': Node, a: seq<Row>, b: seq<Row>, m: nat, done: seq<Row>,
                                     done': seq<Row>, k: nat, i: nat)
    requires LayerOk(root, a, m, done) && RowsAlike(a, b, k) && |done| == |done'|
    requires i < |Rows(a, |done|)| && Depth(root, Rows(a, |done|)[i].0.path) <= m + k
    ensures i < |Rows(b, |done|)| && SameRow(Rows(a, |done|)[i], Rows(b, |done|)[i])
    decreases LayerWeight(a)
  {
    hide LayerOk, Found, Next, Depth, LayerWeight, Alike;
    var base := |done|;
    LayerSmaller(a, base);
    LayerSmaller(b, base);
    LayerStep(root, a, m, done);
    FoundAlike(a, b, k);
    var n := |Found(a)|;
    if i < n {
      AlikeItem(Found(a)[i].0, Found(b)[i].0, k);
      AlikePath(Found(a)[i].0, Found(b)[i].0, k);
    } else {
      RowsDepth(root, Next(Found(a), base), m + 1, done + Found(a), i - n);
      forall j | 0 <= j < n ensures Found(a)[j].0.node.item { FoundParents(root, a, m, done, j); }
      NextAlike(Found(a), Found(b), base, k - 1);
      RowsAgree(root, root', Next(Found(a), base), Next(Found(b), base), m + 1, done + Found(a), done' + Found(b), k - 1, i - n);
    }
  }

  lemma AlikePath(x: Place, y: Place, k: nat)
    requires Alike(x, y, k)
    ensures x.path == y.path
  {
  }

  lemma RootsAlike(root: Node, root': Node, k: nat)
    requires Cut(root, k) == Cut(root', k)
    ensures RowsAlike([(Place([], root), None)], [(Place([], root'), None)], k)
  {
  }

  /** Changing the insides of the items of layer `k` does not change the numbers and parents of items down to layer `k`. */
  lemma NumbersStable(root: Node, root': Node, k: nat, i: nat)
    requires Cut(root, k) == Cut(root', k)
    requires i < |RowsOf(root)| && Depth(root, RowsOf(root)[i].0.path) <= k
    ensures i < |RowsOf(root')| && SameRow(RowsOf(root)[i], RowsOf(root')[i])
  {
    hide LayerOk, RowsAlike, Cut, Depth, Rows, SameRow;
    FirstLayer(root);
    RootsAlike(root, root', k);
    RowsAgree(root, root', [(Place([], root), None)], [(Place([], root'), None)], 0, [], [], k, i);
  }
}
