/** Numbers for the items of a syntax tree, in an order that is breadth-first for items and depth-first for all other nodes. */
module AstIds {
  import opened Prelude

  /** A syntax node; `item` tells whether nodes of its kind have an entry in the map. */
  datatype Node = Node(kind: nat, item: bool, children: seq<Node>)

  type Path = seq<nat>

  type Id = nat

  /** A node and its position in the tree. */
  datatype Place = Place(path: Path, node: Node)

  type Row = (Place, Option<Id>)

  function Children(x: Place): (r: seq<Place>)
    ensures |r| == |x.node.children|
  {
    ChildrenFrom(x, 0)
  }

  function ChildrenFrom(x: Place, from: nat): (r: seq<Place>)
    requires from <= |x.node.children|
    ensures |r| == |x.node.children| - from
  {
    seq(|x.node.children| - from, i requires 0 <= i < |x.node.children| - from => Place(x.path + [from + i], x.node.children[from + i]))
  }

  function Size(n: Node): (r: nat)
    ensures r == 1 + SizeAll(n.children)
  {
    1 + SizeAll(n.children)
  }

  function SizeAll(ns: seq<Node>): nat {
    if ns == [] then 0 else Size(ns[0]) + SizeAll(ns[1..])
  }

  function Weight(xs: seq<Place>): (r: nat)
    ensures xs != [] ==> r > 0
  {
    if xs == [] then 0 else Size(xs[0].node) + Weight(xs[1..])
  }

  lemma {:induction false} WeightConcat(a: seq<Place>, b: seq<Place>)
    ensures Weight(a + b) == Weight(a) + Weight(b)
  {
    if a == [] {
      assert a + b == b;
    } else {
      assert (a + b)[1..] == a[1..] + b;
      WeightConcat(a[1..], b);
    }
  }

  lemma {:induction false} ChildrenWeight(x: Place, from: nat)
    requires from <= |x.node.children|
    ensures Weight(ChildrenFrom(x, from)) == SizeAll(x.node.children[from..])
    decreases |x.node.children| - from
  {
    if from < |x.node.children| {
      ChildrenWeight(x, from + 1);
      assert ChildrenFrom(x, from)[1..] == ChildrenFrom(x, from + 1);
      assert x.node.children[from..][1..] == x.node.children[from + 1..];
    }
  }

  lemma Smaller(x: Place, rest: seq<Place>)
    ensures Weight(Children(x) + rest) < Weight([x] + rest) == Size(x.node) + Weight(rest)
    ensures Weight(Children(x)) == Size(x.node) - 1
  {
    hide Weight;
    ChildrenWeight(x, 0);
    assert x.node.children[0..] == x.node.children;
    WeightConcat(Children(x), rest);
    WeightConcat([x], rest);
    OneWeight(x);
  }

  lemma OneWeight(x: Place)
    ensures Weight([x]) == Size(x.node)
  {
    assert [x][1..] == [];
  }

  /** The items met by walking trees in preorder without looking inside items. */
  function Front(xs: seq<Place>): seq<Place>
    decreases Weight(xs)
  {
    if xs == [] then []
    else
      assert xs == [xs[0]] + xs[1..];
      Smaller(xs[0], xs[1..]);
      if xs[0].node.item then [xs[0]] + Front(xs[1..]) else Front(Children(xs[0]) + xs[1..])
  }

  function Tagged(xs: seq<Place>, id: Option<Id>): (r: seq<Row>)
    ensures |r| == |xs|
  {
    seq(|xs|, i requires 0 <= i < |xs| => (xs[i], id))
  }

  /** The items of a layer, with their parents. */
  function Found(q: seq<Row>): seq<Row> {
    if q == [] then [] else Tagged(Front([q[0].0]), q[0].1) + Found(q[1..])
  }

  /** The next layer: the children of the items found, which are numbered from `base` on. */
  function Next(found: seq<Row>, base: Id): seq<Row> {
    if found == [] then [] else Tagged(Children(found[0].0), Some(base)) + Next(found[1..], base + 1)
  }

  function LayerWeight(q: seq<Row>): (r: nat)
    ensures q != [] ==> r > 0
  {
    if q == [] then 0 else Size(q[0].0.node) + LayerWeight(q[1..])
  }

  lemma {:induction false} LayerWeightConcat(a: seq<Row>, b: seq<Row>)
    ensures LayerWeight(a + b) == LayerWeight(a) + LayerWeight(b)
  {
    if a == [] {
      assert a + b == b;
    } else {
      assert (a + b)[1..] == a[1..] + b;
      LayerWeightConcat(a[1..], b);
    }
  }

  lemma {:induction false} TaggedWeight(xs: seq<Place>, id: Option<Id>)
    ensures LayerWeight(Tagged(xs, id)) == Weight(xs)
  {
    if xs != [] {
      assert Tagged(xs, id)[1..] == Tagged(xs[1..], id);
      TaggedWeight(xs[1..], id);
    }
  }

  lemma {:induction false} FrontWeight(xs: seq<Place>)
    ensures Weight(Front(xs)) <= Weight(xs)
    decreases Weight(xs)
  {
    if xs != [] {
      assert xs == [xs[0]] + xs[1..];
      Smaller(xs[0], xs[1..]);
      if xs[0].node.item {
        FrontWeight(xs[1..]);
        WeightConcat([xs[0]], Front(xs[1..]));
        assert Weight([xs[0]]) == Size(xs[0].node);
      } else {
        FrontWeight(Children(xs[0]) + xs[1..]);
      }
    }
  }

  lemma {:induction false} FoundWeight(q: seq<Row>)
    ensures LayerWeight(Found(q)) <= LayerWeight(q)
  {
    if q != [] {
      var front := Front([q[0].0]);
      FrontWeight([q[0].0]);
      assert Weight([q[0].0]) == Size(q[0].0.node);
      TaggedWeight(front, q[0].1);
      LayerWeightConcat(Tagged(front, q[0].1), Found(q[1..]));
      FoundWeight(q[1..]);
    }
  }

  lemma {:induction false} NextWeight(found: seq<Row>, base: Id)
    ensures LayerWeight(Next(found, base)) + |found| <= LayerWeight(found)
  {
    if found != [] {
      Smaller(found[0].0, []);
      TaggedWeight(Children(found[0].0), Some(base));
      LayerWeightConcat(Tagged(Children(found[0].0), Some(base)), Next(found[1..], base + 1));
      NextWeight(found[1..], base + 1);
    }
  }

  lemma LayerSmaller(q: seq<Row>, base: Id)
    requires q != []
    ensures LayerWeight(Next(Found(q), base)) < LayerWeight(q)
  {
    FoundWeight(q);
    NextWeight(Found(q), base);
  }

  /** All items, layer by layer, with the numbers of their parents. */
  function Rows(q: seq<Row>, base: Id): seq<Row>
    decreases LayerWeight(q)
  {
    if q == [] then []
    else
      LayerSmaller(q, base);
      Found(q) + Rows(Next(Found(q), base), base + |Found(q)|)
  }

  function RowsOf(root: Node): seq<Row> {
    Rows([(Place([], root), None)], 0)
  }

  // ---------------------------------------------------------------- building the map

  function Zip(places: seq<Place>, parents: seq<Option<Id>>): (r: seq<Row>)
    requires |places| == |parents|
    ensures |r| == |places|
  {
    seq(|places|, i requires 0 <= i < |places| => (places[i], parents[i]))
  }

  class AstIdMap {
    var arena: seq<Place>
    var parents: seq<Option<Id>>

    ghost predicate Valid()
      reads this
    {
      |arena| == |parents|
    }

    ghost function View(): (r: seq<Row>)
      reads this
      requires Valid()
      ensures |r| == |arena|
    {
      Zip(arena, parents)
    }

    constructor ()
      ensures Valid() && View() == [] && fresh(this)
    {
      arena, parents := [], [];
    }

    method Alloc(item: Place, parent: Option<Id>) returns (id: Id)
      requires Valid()
      modifies this
      ensures Valid() && id == old(|arena|) && View() == old(View()) + [(item, parent)]
    {
      parents := parents + [parent];
      arena := arena + [item];
      return |arena| - 1;
    }

    /** Walk below one node of a layer; items get the next numbers, and their children go to the next layer. */
    method Walk(node: Place, parent: Option<Id>, nextLayer: seq<Row>, ghost done: seq<Row>, ghost base: Id) returns (r: seq<Row>)
      requires Valid() && nextLayer == Next(done, base) && |arena| == base + |done|
      modifies this
      ensures Valid() && View() == old(View()) + Tagged(Front([node]), parent)
      ensures r == Next(done + Tagged(Front([node]), parent), base)
    {
      hide Valid, View, Next, Weight, Children, Tagged;
      r := nextLayer;
      var preorder := [node];
      ghost var front: seq<Row> := [];
      TaggedNone(parent, done);
      assert done + front == done && View() + front == View();
      while preorder != []
        invariant Valid() && front + Tagged(Front(preorder), parent) == Tagged(Front([node]), parent)
        invariant View() == old(View()) + front && r == Next(done + front, base)
        decreases Weight(preorder)
      {
        var x := preorder[0];
        ghost var walked := preorder;
        preorder := preorder[1..];
        FrontStep(walked, parent);
        if x.node.item {
          var it := Alloc(x, parent);
          NextPush(done + front, (x, parent), base);
          r := r + Tagged(Children(x), Some(it));
          assert done + (front + [(x, parent)]) == done + front + [(x, parent)];
          assert front + ([(x, parent)] + Tagged(Front(preorder), parent)) == front + [(x, parent)] + Tagged(Front(preorder), parent);
          front := front + [(x, parent)];
        } else {
          preorder := Children(x) + preorder;
        }
      }
      TaggedNone(parent, front);
    }

    /** One layer: its items get numbers, and their children are the next layer. */
    method WalkLayer(currLayer: seq<Row>) returns (nextLayer: seq<Row>)
      requires Valid()
      modifies this
      ensures Valid() && View() == old(View()) + Found(currLayer) && nextLayer == Next(Found(currLayer), |old(arena)|)
    {
      hide Next, Front, Tagged, Zip;
      nextLayer := [];
      ghost var done: seq<Row> := [];
      NextNone(|arena|);
      var i := 0;
      while i < |currLayer|
        invariant 0 <= i <= |currLayer| && Valid()
        invariant View() == old(View()) + done && nextLayer == Next(done, |old(arena)|)
        invariant done + Found(currLayer[i..]) == Found(currLayer)
      {
        nextLayer := Walk(currLayer[i].0, currLayer[i].1, nextLayer, done, |old(arena)|);
        assert currLayer[i..][1..] == currLayer[i + 1..];
        done := done + Tagged(Front([currLayer[i].0]), currLayer[i].1);
        i := i + 1;
      }
      assert currLayer[i..] == [] && done == Found(currLayer);
    }

    method FromSource(root: Node)
      requires Valid() && View() == []
      modifies this
      ensures Valid() && View() == RowsOf(root)
    {
      hide Next, Found, LayerWeight, Zip;
      var currLayer: seq<Row> := [(Place([], root), None)];
      assert View() + Rows(currLayer, |arena|) == RowsOf(root);
      while currLayer != []
        invariant Valid() && View() + Rows(currLayer, |arena|) == RowsOf(root)
        decreases LayerWeight(currLayer)
      {
        LayerSmaller(currLayer, |arena|);
        currLayer := WalkLayer(currLayer);
      }
    }
  }

  lemma TaggedNone(parent: Option<Id>, done: seq<Row>)
    ensures Tagged(Front([]), parent) == [] && done + Tagged(Front([]), parent) == done
  {
    assert Front([]) == [] && Tagged([], parent) == [];
    assert done + [] == done;
  }

  lemma TaggedConcat(a: seq<Place>, b: seq<Place>, id: Option<Id>)
    ensures Tagged(a + b, id) == Tagged(a, id) + Tagged(b, id) && (forall x :: Tagged([x], id) == [(x, id)])
  {
  }

  lemma NextNone(base: Id)
    ensures Next([], base) == []
  {
  }

  /** One step of a walk. */
  lemma FrontStep(xs: seq<Place>, parent: Option<Id>)
    requires xs != []
    ensures var x, rest := xs[0], xs[1..];
      && Tagged(Front(xs), parent) == (if x.node.item then [(x, parent)] + Tagged(Front(rest), parent) else Tagged(Front(Children(x) + rest), parent))
      && Weight(Children(x) + rest) < Weight(xs) && Weight(rest) < Weight(xs)
  {
    hide Weight, Tagged, Children;
    Smaller(xs[0], xs[1..]);
    assert xs == [xs[0]] + xs[1..];
    TaggedConcat([xs[0]], Front(xs[1..]), parent);
  }

  lemma {:induction false} NextPush(found: seq<Row>, row: Row, base: Id)
    ensures Next(found + [row], base) == Next(found, base) + Tagged(Children(row.0), Some(base + |found|))
  {
    if found == [] {
      assert [row][1..] == [] && [] + [row] == [row];
    } else {
      assert (found + [row])[1..] == found[1..] + [row];
      NextPush(found[1..], row, base + 1);
    }
  }
}
