/** Operations on a whole tree that do not change its shape, create it, or free it. */
module BForestTrees {
  import opened Prelude
  import opened BForestLevels
  import opened BForestNode
  import opened BForestPool
  import opened BForestBlocks
  import opened BForestPathTheory
  import opened BForestPath
  import opened BForestFrame
  import opened BForestRekey

  // ---------------------------------------------------------------- overwriting a value

  ghost function WithValue(s: Level, q: nat, value: Value): Level
    requires q < |s| && s[q].Entry?
  {
    s[q := Entry(s[q].key, value)]
  }

  lemma LeafValueSet(view: View, view1: View, it: Item, e: nat, value: Value, cap: nat)
    requires NodeOk(view, it, true, cap) && e < |view[it.id].keys|
    requires view1 == view[it.id := Leaf(view[it.id].keys, view[it.id].vals[e := value])]
    ensures e < |KidsOf(view, it)| && KidsOf(view, it)[e].Entry?
    ensures KidsOf(view1, it) == WithValue(KidsOf(view, it), e, value)
    ensures NodeOk(view1, it, true, cap)
  {
  }

  /** The entry under the cursor takes another value. */
  lemma ValueSet(view: View, view1: View, L: seq<Level>, L1: seq<Level>, leafCap: nat, root: Node,
                 node: seq<Node>, entry: seq<nat>, pos: seq<nat>, k: nat, q: nat, value: Value)
    requires TreeOk(view, L, leafCap, root) && k + 2 == |L| && PathTo(view, L, node, entry, pos, k + 1)
    requires pos[k] < |L[k]| && NodeOk(view, L[k][pos[k]], true, leafCap) && entry[k] < |view[L[k][pos[k]].id].keys|
    requires var d := view[L[k][pos[k]].id]; view1 == view[L[k][pos[k]].id := Leaf(d.keys, d.vals[entry[k] := value])]
    requires q == Offset(view, L[k], pos[k]) + entry[k] < |L[k + 1]| && L[k + 1][q].Entry?
    requires L1 == L[k + 1 := WithValue(L[k + 1], q, value)]
    ensures TreeOk(view1, L1, leafCap, root) && PathTo(view1, L1, node, entry, pos, k + 1)
    ensures entry[k] < EntriesAt(view1, L1, pos, k) && q == Offset(view1, L1[k], pos[k]) + entry[k]
    ensures Replaced(view, view1, AllIds(L), AllIds(L1))
  {
    hide Expand, KidsOf, Ids;
    var s, p, e := L[k], pos[k], entry[k];
    assert NodeLevel(view, L, leafCap, k);
    LeafValueSet(view, view1, s[p], e, value, leafCap);
    var block := KidsOf(view1, s[p]);
    ExpandSplit(view, s, p);
    UpdateInBlock(Expand(view, s[..p]), KidsOf(view, s[p]), Expand(view, s[p + 1..]), e, Entry(L[k + 1][q].key, value));
    KidAt(view, s, p, e);
    forall j | 0 <= j < |L1| - 1 && j != k ensures NodeLevel(view, L1, leafCap, j) {
      assert NodeLevel(view, L, leafCap, j) && L1[j] == L[j] && L1[j + 1] == L[j + 1];
    }
    assert Pending(view, L1, leafCap, k, p, block) by { assert LevelSound(view, L, leafCap, k); }
    HalfStays(view, view1, s, p, leafCap);
    BlockDone(view, view1, L1, leafCap, k, p, block);
    forall j | 0 <= j < |L1| - 1 ensures NodeLevel(view1, L1, leafCap, j) {
      assert j != -1;
    }
    MemberId(s, p);
    ValuePath(view, view1, L, L1, leafCap, node, entry, pos, k, s[p].id);
    ValueFrame(view, view1, L, L1, leafCap, k, s[p].id);
  }

  lemma HalfStays(view: View, view1: View, s: Level, p: nat, cap: nat)
    requires p < |s| && LevelOk(view, s, true, cap) && |KidsOf(view1, s[p])| == |KidsOf(view, s[p])|
    ensures p < |s| - 1 ==> HalfFull(view1, s[p], cap)
  {
    assert p < |s| - 1 ==> HalfFull(view, s[p], cap);
  }

  lemma ValuePath(view: View, view1: View, L: seq<Level>, L1: seq<Level>, leafCap: nat, node: seq<Node>,
                  entry: seq<nat>, pos: seq<nat>, k: nat, x: Node)
    requires k + 2 == |L| == |L1| && Distinct(L) && PathTo(view, L, node, entry, pos, k + 1) && pos[k] < |L[k]|
    requires forall j :: 0 <= j <= k ==> L1[j] == L[j]
    requires forall j :: 0 <= j < k ==> NodeLevel(view, L, leafCap, j)
    requires |view1| == |view| && ChangedOnly(view, view1, {x}) && x in Ids(L[k]) && L[k][pos[k]].Sub? && L[k][pos[k]].id == x
    ensures PathTo(view1, L1, node, entry, pos, k + 1) && Offset(view1, L1[k], pos[k]) == Offset(view, L[k], pos[k])
  {
    hide Expand, KidsOf, Ids;
    DistinctElsewhere(L, k, x);
    forall j | 0 <= j < k ensures AgreeOn(view, view1, L[j]) {
      assert NodeLevel(view, L, leafCap, j);
      LevelFrame(view, view1, L, leafCap, j, {x});
    }
    UpperFrame(view, view1, L, L1, node, entry, pos, node, entry, pos, k + 1);
    OthersKeep(view, view1, L[k], pos[k], x);
    ExpandFrame(view, view1, L[k][..pos[k]]);
  }

  lemma ValueFrame(view: View, view1: View, L: seq<Level>, L1: seq<Level>, leafCap: nat, k: nat, x: Node)
    requires k + 2 == |L| == |L1| && (forall j :: 0 <= j <= k ==> L1[j] == L[j])
    requires forall j :: 0 <= j < |L| - 1 ==> NodeLevel(view, L, leafCap, j)
    requires |view1| == |view| && ChangedOnly(view, view1, {x}) && x in Ids(L[k]) && x < |view| && !view1[x].Free?
    ensures AllIds(L1) == AllIds(L) && Replaced(view, view1, AllIds(L), AllIds(L1))
  {
    hide Expand, KidsOf, Ids;
    assert AllIds(L1) == AllIds(L);
    forall j | 0 <= j < |L| - 1 ensures LevelSound(view, L, leafCap, j) {
      assert NodeLevel(view, L, leafCap, j);
    }
    IdsLive(view, L, leafCap);
    ReplacedNothing(view, AllIds(L));
    ReplacedEdit(view, view, view1, AllIds(L), AllIds(L), {x});
  }

  /** Only value `e` of a leaf has been overwritten. */
  ghost predicate ValueAt(view: View, view1: View, n: Node, e: nat, value: Value) {
    && n < |view| && view[n].Leaf? && e < |view[n].vals|
    && view1 == view[n := Leaf(view[n].keys, view[n].vals[e := value])]
  }

  /** A position of a level is in one node, at one entry. */
  lemma SamePosition(view: View, s: Level, p: nat, e: nat, p': nat, e': nat)
    requires p < |s| && p' < |s| && e < |KidsOf(view, s[p])| && e' < |KidsOf(view, s[p'])|
    requires Offset(view, s, p) + e == Offset(view, s, p') + e'
    ensures p == p' && e == e'
  {
    hide Expand, KidsOf, Offset;
    OffsetStep(view, s, p);
    OffsetStep(view, s, p');
    if p < p' { OffsetMono(view, s, p + 1, p'); }
    if p' < p { OffsetMono(view, s, p' + 1, p); }
  }

  /** Another cursor on the entry whose value is overwritten stays there. */
  lemma OtherCursor(view: View, view1: View, L: seq<Level>, leafCap: nat, root: Node, path: Path, other: Path, value: Value)
    requires TreeOk(view, L, leafCap, root) && path.OnEntry(view, L) && other.OnEntry(view, L)
    requires path.size == other.size < |path.pos| && path.size < |other.pos| && path.pos[path.size] == other.pos[path.size]
    requires ValueAt(view, view1, path.node[path.size - 1], path.entry[path.size - 1], value)
    requires path.pos[path.size] < |L[|L| - 1]| && L[|L| - 1][path.pos[path.size]].Entry?
    ensures other.OnEntry(view1, L[|L| - 1 := WithValue(L[|L| - 1], path.pos[path.size], value)])
  {
    hide Expand, KidsOf, Offset, TreeOk;
    var k: nat := |L| - 2;
    path.AtLeaf(view, L, leafCap, root);
    other.AtLeaf(view, L, leafCap, root);
    SamePosition(view, L[k], path.pos[k], path.entry[k], other.pos[k], other.entry[k]);
    var q := path.pos[path.size];
    var L1 := L[k + 1 := WithValue(L[k + 1], q, value)];
    ValueSet(view, view1, L, L1, leafCap, root, other.node[..], other.entry[..], other.pos, k, q, value);
  }

  /** Overwrite the value under the cursor. */
  method SetValue(path: Path, value: Value, pool: NodePool, ghost L: seq<Level>, ghost root: Node) returns (ghost L': seq<Level>)
    requires Ready(path, pool) && TreeOk(pool.view, L, pool.leafCap, root) && path.OnEntry(pool.view, L)
    modifies pool.Repr
    ensures Ready(path, pool) && pool.Repr == old(pool.Repr)
    ensures path.pos[path.size] < |L[|L| - 1]| && L[|L| - 1][path.pos[path.size]].Entry?
    ensures L' == L[|L| - 1 := WithValue(L[|L| - 1], path.pos[path.size], value)]
    ensures TreeOk(pool.view, L', pool.leafCap, root) && path.OnEntry(pool.view, L')
    ensures Replaced(old(pool.view), pool.view, AllIds(L), AllIds(L'))
    ensures path.size > 0 && ValueAt(old(pool.view), pool.view, path.node[path.size - 1], path.entry[path.size - 1], value)
  {
    hide Expand, KidsOf, Offset, TreeOk, Replaced;
    ghost var view, k: nat := pool.view, |L| - 2;
    path.AtLeaf(view, L, pool.leafCap, root);
    ghost var q := path.pos[path.size];
    assert L[k + 1][q].Entry? by { AllEntries(view, L, pool.leafCap, root, q); }
    L' := L[k + 1 := WithValue(L[k + 1], q, value)];
    pool.SetVal(path.node[path.size - 1], path.entry[path.size - 1], value);
    ValueSet(view, pool.view, L, L', pool.leafCap, root, path.node[..], path.entry[..], path.pos, k, q, value);
  }

  lemma AllEntries(view: View, L: seq<Level>, leafCap: nat, root: Node, q: nat)
    requires TreeOk(view, L, leafCap, root) && q < |L[|L| - 1]|
    ensures L[|L| - 1][q].Entry?
  {
  }

  // ---------------------------------------------------------------- a new tree

  /** A tree of one leaf with one entry. */
  lemma SingleLeaf(view: View, view1: View, root: Node, key: Key, value: Value, leafCap: nat)
    requires root < |view1| && view1[root] == Leaf([key], [value]) && leafCap > 0
    requires root !in Live(view) && ChangedOnly(view, view1, {root}) && (|view1| == |view| || |view1| == |view| + 1 == root + 1)
    ensures TreeOk(view1, [[Sub(None, root)], [Entry(key, value)]], leafCap, root)
    ensures AllIds([[Sub(None, root)], [Entry(key, value)]]) == {root}
    ensures Replaced(view, view1, {}, {root})
  {
    var L: seq<Level> := [[Sub(None, root)], [Entry(key, value)]];
    assert L[0][0].id in Ids(L[0]);
    ExpandOne(view1, L[0][0]);
    assert NodeOk(view1, L[0][0], true, leafCap);
    assert KidsOf(view1, L[0][0]) == [Entry(key, value)];
    assert NodeLevel(view1, L, leafCap, 0) by { assert LevelSound(view1, L, leafCap, 0) && Linked(view1, L, 0); }
    assert Live(view1) == Live(view) + {root};
  }

  /** The path to the only entry of the tree of one leaf. */
  lemma SinglePath(view: View, root: Node, key: Key, value: Value, node: seq<Node>, entry: seq<nat>, pos: seq<nat>)
    requires Buffers(node, entry, pos) && node[0] == root && entry[0] == 0 && pos[0] == pos[1] == 0
    requires root < |view| && view[root] == Leaf([key], [value])
    ensures var L: seq<Level> := [[Sub(None, root)], [Entry(key, value)]];
      PathTo(view, L, node, entry, pos, 1) && EntriesAt(view, L, pos, 0) == 1 && Offset(view, L[0], 0) == 0
  {
    var L: seq<Level> := [[Sub(None, root)], [Entry(key, value)]];
    assert OnNode(L, node, pos, 0);
    ExpandEmpty(view, L[0]);
  }

  /** Create a tree holding one pair, with the cursor on it. */
  method NewTree(path: Path, key: Key, value: Value, pool: NodePool) returns (root: Node, ghost L: seq<Level>)
    requires Ready(path, pool)
    modifies path, path.node, path.entry, pool
    ensures Ready(path, pool) && fresh(pool.Repr - old(pool.Repr))
    ensures L == [[Sub(None, root)], [Entry(key, value)]]
    ensures TreeOk(pool.view, L, pool.leafCap, root) && path.OnEntry(pool.view, L) && path.node[0] == root && path.pos[path.size] == 0
    ensures Replaced(old(pool.view), pool.view, {}, AllIds(L))
  {
    hide TreeOk, Replaced, Expand, KidsOf, Offset, PathTo, AllIds, EntriesAt;
    var leaf := new LeafNode(pool.leafCap, key, value);
    root := pool.AllocNode(LeafSlot(leaf));
    L := [[Sub(None, root)], [Entry(key, value)]];
    assert root !in Live(old(pool.view));
    SingleLeaf(old(pool.view), pool.view, root, key, value, pool.leafCap);
    SetRootNode(path, root);
    SinglePath(pool.view, root, key, value, path.node[..], path.entry[..], path.pos);
  }

  /** Point the path at the first entry of a root that is a leaf. */
  method SetRootNode(path: Path, root: Node)
    requires path.Valid()
    modifies path, path.node, path.entry
    ensures path.Valid() && path.size == 1 && path.node[0] == root && path.entry[0] == 0 && path.pos[0] == path.pos[1] == 0
  {
    path.size := 1;
    path.node[0] := root;
    path.entry[0] := 0;
    path.pos := path.pos[0 := 0][1 := 0];
  }
}
