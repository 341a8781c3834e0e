/** Every item gets one number, its parent is the nearest item above it, and layers are numbered one after the other. */
module AstIdsOrder {
  import opened Prelude
  import opened AstIds

  // ---------------------------------------------------------------- positions

  /** The node at a position. */
  function Sub(root: Node, p: Path): Option<Node> {
    if p == [] then Some(root)
    else
      var above := Sub(root, p[..|p| - 1]);
      if above.Some? && p[|p| - 1] < |above.value.children| then Some(above.value.children[p[|p| - 1]]) else None
  }

  predicate ItemAt(root: Node, p: Path) {
    Sub(root, p).Some? && Sub(root, p).value.item
  }

  predicate PlaceOk(root: Node, x: Place) {
    Sub(root, x.path) == Some(x.node)
  }

  /** Number of items above a position. */
  function Depth(root: Node, p: Path): nat {
    if p == [] then 0 else Depth(root, p[..|p| - 1]) + if ItemAt(root, p[..|p| - 1]) then 1 else 0
  }

  /** No item from `p` on down to above `q`. */
  ghost predicate Free(root: Node, p: Path, q: Path) {
    forall k :: |p| <= k < |q| ==> !ItemAt(root, q[..k])
  }

  lemma FreeStep(root: Node, p: Path, q: Path)
    requires p <= q && p != q
    ensures Free(root, p, q) <==> Free(root, p, q[..|q| - 1]) && !ItemAt(root, q[..|q| - 1])
  {
    var q' := q[..|q| - 1];
    forall k | 0 <= k < |q| ensures q[..k] == q'[..k] {
    }
    assert q'[..|q'|] == q';
    if Free(root, p, q) {
      forall k | |p| <= k < |q'| ensures !ItemAt(root, q'[..k]) { assert !ItemAt(root, q[..k]); }
    }
    if Free(root, p, q') && !ItemAt(root, q') {
      forall k | |p| <= k < |q| ensures !ItemAt(root, q[..k]) { assert k < |q'| ==> !ItemAt(root, q'[..k]); }
    }
  }

  lemma {:induction false} DepthFree(root: Node, p: Path, q: Path)
    requires p <= q
    ensures Depth(root, p) <= Depth(root, q) && (Depth(root, p) == Depth(root, q) <==> Free(root, p, q))
    ensures p != q && ItemAt(root, p) ==> Depth(root, p) < Depth(root, q)
    decreases |q|
  {
    hide ItemAt;
    if p == q {
      assert Free(root, p, q);
    } else {
      assert p <= q[..|q| - 1];
      DepthFree(root, p, q[..|q| - 1]);
      FreeStep(root, p, q);
    }
  }

  /** Nothing below an item is free of it. */
  lemma FreeItem(root: Node, p: Path, q: Path)
    requires p <= q && Free(root, p, q) && ItemAt(root, p)
    ensures p == q
  {
    assert q[..|p|] == p;
  }

  lemma {:induction false} SubAbove(root: Node, p: Path, k: nat)
    requires Sub(root, p).Some? && k <= |p|
    ensures Sub(root, p[..k]).Some?
    ensures k < |p| ==> p[k] < |Sub(root, p[..k]).value.children|
    decreases |p|
  {
    if k < |p| {
      var p' := p[..|p| - 1];
      SubAbove(root, p', k);
      assert p'[..k] == p[..k];
    } else {
      assert p[..k] == p;
    }
  }

  lemma ChildrenOk(root: Node, x: Place)
    requires PlaceOk(root, x)
    ensures forall i :: 0 <= i < |Children(x)| ==>
      PlaceOk(root, Children(x)[i]) && Children(x)[i].path == x.path + [i]
      && Depth(root, x.path + [i]) == Depth(root, x.path) + if x.node.item then 1 else 0
  {
    forall i | 0 <= i < |Children(x)| ensures PlaceOk(root, Children(x)[i]) && Children(x)[i].path == x.path + [i]
      && Depth(root, x.path + [i]) == Depth(root, x.path) + if x.node.item then 1 else 0 {
      assert (x.path + [i])[..|x.path|] == x.path;
    }
  }

  // ---------------------------------------------------------------- walking finds each item once

  /** No position is above or equal to another. */
  ghost predicate Apart(xs: seq<Place>) {
    forall i, j :: 0 <= i < |xs| && 0 <= j < |xs| && i != j ==> !(xs[i].path <= xs[j].path)
  }

  ghost predicate AllOk(root: Node, xs: seq<Place>) {
    forall i :: 0 <= i < |xs| ==> PlaceOk(root, xs[i])
  }

  /** An item that a walk from `xs` meets. */
  ghost predicate Met(root: Node, xs: seq<Place>, x: Place) {
    PlaceOk(root, x) && x.node.item && exists i :: 0 <= i < |xs| && xs[i].path <= x.path && Free(root, xs[i].path, x.path)
  }

  lemma NotAbove(y: Path, a: Path, b: Path)
    requires y <= a && !(y <= b)
    ensures !(a <= b)
  {
  }

  lemma NotAboveChild(a: Path, y: Path, d: nat)
    requires !(a <= y) && !(y <= a)
    ensures !(a <= y + [d])
  {
    if |a| > |y| { assert !(y <= a); }
  }

  lemma ApartChildren(root: Node, y: Place, rest: seq<Place>)
    requires Apart([y] + rest) && PlaceOk(root, y)
    ensures Apart(Children(y) + rest) && Apart(rest)
  {
    hide Children, PlaceOk;
    var xs, zs := [y] + rest, Children(y) + rest;
    var n := |Children(y)|;
    ChildrenOk(root, y);
    assert xs[0] == y;
    forall i, j | 0 <= i < |zs| && 0 <= j < |zs| && i != j ensures !(zs[i].path <= zs[j].path) {
      assert i < n ==> zs[i] == Children(y)[i] && zs[i].path == y.path + [i];
      assert j < n ==> zs[j] == Children(y)[j] && zs[j].path == y.path + [j];
      if i < n && j < n {
        assert (y.path + [i])[|y.path|] == i && (y.path + [j])[|y.path|] == j;
      } else if i < n {
        assert zs[j] == xs[j - n + 1];
        NotAbove(y.path, zs[i].path, zs[j].path);
      } else if j < n {
        assert zs[i] == xs[i - n + 1];
        NotAboveChild(zs[i].path, y.path, j);
      } else {
        assert zs[i] == xs[i - n + 1] && zs[j] == xs[j - n + 1];
      }
    }
    forall i, j | 0 <= i < |rest| && 0 <= j < |rest| && i != j ensures !(rest[i].path <= rest[j].path) {
      assert xs[i + 1] == rest[i] && xs[j + 1] == rest[j];
    }
  }

  /** The head of a walk is an item: it is met, and nothing below it. */
  lemma MetItem(root: Node, y: Place, rest: seq<Place>, x: Place)
    requires Apart([y] + rest) && PlaceOk(root, y) && y.node.item
    ensures Met(root, [y] + rest, x) <==> x == y || Met(root, rest, x)
    ensures !Met(root, rest, y)
  {
    var xs := [y] + rest;
    forall i | 0 <= i < |rest| ensures xs[i + 1] == rest[i] && !(rest[i].path <= y.path) {
      assert xs[i + 1] == rest[i] && xs[0] == y;
    }
    if Met(root, xs, x) {
      var i :| 0 <= i < |xs| && xs[i].path <= x.path && Free(root, xs[i].path, x.path);
      if i == 0 { FreeItem(root, y.path, x.path); }
    }
    assert xs[0] == y && y.path <= y.path && Free(root, y.path, y.path);
  }

  /** An item below a node that is not an item is below one of its children. */
  lemma MetChild(root: Node, y: Place, x: Place) returns (d: nat)
    requires PlaceOk(root, y) && !y.node.item && PlaceOk(root, x) && x.node.item && y.path <= x.path && Free(root, y.path, x.path)
    ensures d < |Children(y)| && y.path + [d] <= x.path && Free(root, y.path + [d], x.path)
  {
    assert x.path != y.path;
    d := x.path[|y.path|];
    SubAbove(root, x.path, |y.path|);
    assert x.path[..|y.path|] == y.path;
    assert x.path[..|y.path| + 1] == y.path + [d];
  }

  lemma MetParent(root: Node, y: Place, x: Place, d: nat)
    requires PlaceOk(root, y) && !y.node.item && y.path + [d] <= x.path && Free(root, y.path + [d], x.path)
    ensures y.path <= x.path && Free(root, y.path, x.path)
  {
    assert x.path[..|y.path|] == y.path;
  }

  /** The head is not an item: its children are walked instead. */
  lemma MetChildren(root: Node, y: Place, rest: seq<Place>, x: Place)
    requires PlaceOk(root, y) && !y.node.item
    ensures Met(root, [y] + rest, x) <==> Met(root, Children(y) + rest, x)
  {
    hide Free, PlaceOk, Children;
    var xs, zs := [y] + rest, Children(y) + rest;
    var n := |Children(y)|;
    ChildrenOk(root, y);
    assert xs[0] == y;
    if Met(root, xs, x) {
      var i :| 0 <= i < |xs| && xs[i].path <= x.path && Free(root, xs[i].path, x.path);
      if i > 0 {
        assert zs[n + i - 1] == xs[i];
      } else {
        var d := MetChild(root, y, x);
        assert zs[d] == Children(y)[d] && zs[d].path == y.path + [d];
      }
    }
    if Met(root, zs, x) {
      var i :| 0 <= i < |zs| && zs[i].path <= x.path && Free(root, zs[i].path, x.path);
      if i >= n {
        assert xs[i - n + 1] == zs[i];
      } else {
        assert zs[i] == Children(y)[i];
        MetParent(root, y, x, i);
      }
    }
  }

  /** The walk finds exactly the items it meets, each of them once. */
  lemma {:induction false} FrontCount(root: Node, xs: seq<Place>, x: Place)
    requires Apart(xs) && AllOk(root, xs)
    ensures multiset(Front(xs))[x] == if Met(root, xs, x) then 1 else 0
    decreases Weight(xs)
  {
    hide Apart, Met, PlaceOk, Weight, Children;
    if xs == [] {
      MetNone(root, x);
    } else {
      var y, rest := xs[0], xs[1..];
      assert xs == [y] + rest;
      Smaller(y, rest);
      ApartChildren(root, y, rest);
      forall i | 0 <= i < |rest| ensures PlaceOk(root, rest[i]) { assert rest[i] == xs[i + 1]; }
      if y.node.item {
        MetItem(root, y, rest, x);
        FrontCount(root, rest, x);
        assert multiset([y] + Front(rest)) == multiset([y]) + multiset(Front(rest));
      } else {
        ChildrenOk(root, y);
        MetChildren(root, y, rest, x);
        FrontCount(root, Children(y) + rest, x);
      }
    }
  }

  lemma MetNone(root: Node, x: Place)
    ensures !Met(root, [], x)
  {
  }

  // ---------------------------------------------------------------- document order

  /** Where two positions first differ, `p` is to the left of `q`. */
  ghost predicate Left(p: Path, q: Path) {
    exists k :: 0 <= k < |p| && k < |q| && p[..k] == q[..k] && p[k] < q[k]
  }

  ghost predicate Ordered(xs: seq<Place>) {
    forall i, j :: 0 <= i < j < |xs| ==> Left(xs[i].path, xs[j].path)
  }

  lemma LeftBelow(p: Path, q: Path, p': Path, q': Path)
    requires Left(p, q) && p <= p' && q <= q'
    ensures Left(p', q')
  {
    var k :| 0 <= k < |p| && k < |q| && p[..k] == q[..k] && p[k] < q[k];
    assert p'[..k] == p[..k] && q'[..k] == q[..k];
  }

  lemma LeftSiblings(p: Path, i: nat, j: nat)
    requires i < j
    ensures Left(p + [i], p + [j])
  {
    assert (p + [i])[..|p|] == (p + [j])[..|p|];
  }

  lemma LeftApart(p: Path, q: Path)
    requires Left(p, q)
    ensures !(p <= q) && !(q <= p)
  {
  }

  lemma OrderedApart(xs: seq<Place>)
    requires Ordered(xs)
    ensures Apart(xs)
  {
    hide Left;
    forall i, j | 0 <= i < |xs| && 0 <= j < |xs| && i != j ensures !(xs[i].path <= xs[j].path) {
      if i < j { LeftApart(xs[i].path, xs[j].path); } else { LeftApart(xs[j].path, xs[i].path); }
    }
  }

  lemma PathOfChild(y: Place, i: nat)
    requires i < |Children(y)|
    ensures Children(y)[i].path == y.path + [i]
  {
  }

  /** The children of a place take its position in the order. */
  lemma OrderedChildren(y: Place, rest: seq<Place>)
    requires Ordered(rest) && forall j :: 0 <= j < |rest| ==> Left(y.path, rest[j].path)
    ensures Ordered(Children(y) + rest)
  {
    hide Left, Children;
    var n, xs := |Children(y)|, Children(y) + rest;
    forall i, j | 0 <= i < j < |xs| ensures Left(xs[i].path, xs[j].path) {
      if i < n { PathOfChild(y, i); }
      if j < n {
        PathOfChild(y, j);
        LeftSiblings(y.path, i, j);
      } else if i < n {
        LeftBelow(y.path, rest[j - n].path, xs[i].path, xs[j].path);
      }
    }
  }

  lemma OrderedTail(y: Place, rest: seq<Place>)
    requires Ordered([y] + rest)
    ensures Ordered(rest) && forall j :: 0 <= j < |rest| ==> Left(y.path, rest[j].path)
  {
    hide Left;
    var xs := [y] + rest;
    forall i, j | 0 <= i < j < |rest| ensures Left(rest[i].path, rest[j].path) {
      assert xs[i + 1] == rest[i] && xs[j + 1] == rest[j];
    }
    forall j | 0 <= j < |rest| ensures Left(y.path, rest[j].path) {
      assert xs[0] == y && xs[j + 1] == rest[j];
    }
  }

  /** What a walk finds is at or below the places it starts from. */
  lemma {:induction false} FrontBelow(xs: seq<Place>, k: nat) returns (i: nat)
    requires k < |Front(xs)|
    ensures i < |xs| && xs[i].path <= Front(xs)[k].path
    decreases Weight(xs)
  {
    hide Weight, Children;
    var y, rest := xs[0], xs[1..];
    assert xs == [y] + rest;
    Smaller(y, rest);
    if y.node.item {
      i := 0;
      if k > 0 {
        i := FrontBelow(rest, k - 1);
        i := i + 1;
      }
    } else {
      i := FrontBelow(Children(y) + rest, k);
      var n := |Children(y)|;
      if i < n {
        PathOfChild(y, i);
        i := 0;
      } else {
        i := i - n + 1;
      }
    }
  }

  /** A walk from places in document order finds items in document order. */
  lemma {:induction false} FrontOrdered(xs: seq<Place>)
    requires Ordered(xs)
    ensures Ordered(Front(xs))
    decreases Weight(xs)
  {
    hide Weight, Children, Left;
    if xs != [] {
      var y, rest := xs[0], xs[1..];
      assert xs == [y] + rest;
      Smaller(y, rest);
      OrderedTail(y, rest);
      if y.node.item {
        FrontOrdered(rest);
        forall k | 0 <= k < |Front(rest)| ensures Left(y.path, Front(rest)[k].path) {
          var i := FrontBelow(rest, k);
          LeftBelow(y.path, rest[i].path, y.path, Front(rest)[k].path);
        }
      } else {
        OrderedChildren(y, rest);
        FrontOrdered(Children(y) + rest);
      }
    }
  }
}
