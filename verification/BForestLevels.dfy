/**
 * The mathematical picture of one B+-tree of the forest.
 *
 * A tree with `h` node levels is described by `h + 1` sequences of items.
 * Sequence `k < h` lists the nodes at depth `k` from left to right, each with
 * its critical key (none for the left-most node); sequence `h` lists the
 * key-value pairs.  `Expand` replaces every node of a level by its children, so
 * that consecutive levels are tied by `L[k + 1] == Expand(view, L[k])`.  The
 * left-most child of a node inherits the critical key of that node.
 */
module BForestLevels {
  import opened Prelude

  type Node = nat
  type Key = int
  type Value(0, !new)

  const INNER_SIZE: nat := 8
  const MAX_PATH: nat := 16
  const MAX_ENTRIES: nat := 0x1_0000_0000

  /** The used part of a pool slot. */
  datatype NodeData =
    | Inner(keys: seq<Key>, tree: seq<Node>)
    | Leaf(keys: seq<Key>, vals: seq<Value>)
    | Free(next: Option<Node>)

  /** One position of a level: a node below the root level, or a stored entry. */
  datatype Item =
    | Sub(ck: Option<Key>, id: Node)
    | Entry(key: Key, value: Value)

  type Level = seq<Item>

  ghost predicate Ascending(keys: seq<Key>) {
    forall a, b :: 0 <= a < b < |keys| ==> keys[a] < keys[b]
  }

  type View = seq<NodeData>

  function Kids(d: NodeData, ck: Option<Key>): Level {
    match d
    case Inner(keys, tree) =>
      if |tree| == |keys| + 1 then
        seq(|tree|, i requires 0 <= i < |tree| => Sub(if i == 0 then ck else Some(keys[i - 1]), tree[i]))
      else []
    case Leaf(keys, vals) =>
      if |vals| == |keys| then
        seq(|keys|, i requires 0 <= i < |keys| => Entry(keys[i], vals[i]))
      else []
    case Free(_) => []
  }

  function KidsOf(view: View, it: Item): Level {
    if it.Sub? && it.id < |view| then Kids(view[it.id], it.ck) else []
  }

  function Expand(view: View, s: Level): Level {
    if s == [] then [] else Expand(view, s[..|s| - 1]) + KidsOf(view, s[|s| - 1])
  }

  lemma {:induction false} ExpandConcat(view: View, a: Level, b: Level)
    ensures Expand(view, a + b) == Expand(view, a) + Expand(view, b)
    decreases |b|
  {
    hide KidsOf;
    if b == [] {
      assert a + b == a;
    } else {
      var b' := b[..|b| - 1];
      var last := KidsOf(view, b[|b| - 1]);
      calc {
        Expand(view, a + b);
        { assert (a + b)[..|a + b| - 1] == a + b'; }
        Expand(view, a + b') + last;
        { ExpandConcat(view, a, b'); }
        (Expand(view, a) + Expand(view, b')) + last;
        Expand(view, a) + (Expand(view, b') + last);
        Expand(view, a) + Expand(view, b);
      }
    }
  }

  lemma ExpandOne(view: View, it: Item)
    ensures Expand(view, [it]) == KidsOf(view, it)
  {
    assert [it][..0] == [];
    assert Expand(view, []) + KidsOf(view, it) == KidsOf(view, it);
  }

  /** The children of position `p` are a contiguous block of the next level. */
  lemma ExpandSplit(view: View, s: Level, p: nat)
    requires p < |s|
    ensures Expand(view, s) == Expand(view, s[..p]) + KidsOf(view, s[p]) + Expand(view, s[p + 1..])
    ensures Expand(view, s[..p + 1]) == Expand(view, s[..p]) + KidsOf(view, s[p])
  {
    assert s == s[..p + 1] + s[p + 1..];
    ExpandConcat(view, s[..p + 1], s[p + 1..]);
    assert s[..p + 1][..p] == s[..p];
  }

  /** Number of children of the first `p` nodes of a level. */
  function Offset(view: View, s: Level, p: nat): nat
    requires p <= |s|
  {
    |Expand(view, s[..p])|
  }

  lemma KidAt(view: View, s: Level, p: nat, e: nat)
    requires p < |s|
    requires e < |KidsOf(view, s[p])|
    ensures Offset(view, s, p) + e < |Expand(view, s)|
    ensures Expand(view, s)[Offset(view, s, p) + e] == KidsOf(view, s[p])[e]
  {
    hide Expand, KidsOf;
    ExpandSplit(view, s, p);
    InMiddle(Expand(view, s[..p]), KidsOf(view, s[p]), Expand(view, s[p + 1..]), e);
  }

  lemma InMiddle<T>(a: seq<T>, b: seq<T>, c: seq<T>, e: nat)
    requires e < |b|
    ensures |a| + e < |a + b + c| && (a + b + c)[|a| + e] == b[e]
  {
  }

  lemma OffsetStep(view: View, s: Level, p: nat)
    requires p < |s|
    ensures Offset(view, s, p + 1) == Offset(view, s, p) + |KidsOf(view, s[p])|
    ensures Offset(view, s, p + 1) <= |Expand(view, s)|
    ensures Offset(view, s, |s|) == |Expand(view, s)|
  {
    ExpandSplit(view, s, p);
    assert s[..|s|] == s;
  }

  lemma OffsetMono(view: View, s: Level, i: nat, j: nat)
    requires i <= j <= |s|
    ensures Offset(view, s, i) <= Offset(view, s, j)
  {
    assert s[..j] == s[..i] + s[i..j];
    ExpandConcat(view, s[..i], s[i..j]);
  }

  ghost predicate AgreeOn(view: View, view': View, s: Level) {
    forall i :: 0 <= i < |s| ==> KidsOf(view', s[i]) == KidsOf(view, s[i])
  }

  lemma {:induction false} ExpandFrame(view: View, view': View, s: Level)
    requires AgreeOn(view, view', s)
    ensures Expand(view', s) == Expand(view, s)
  {
    if s != [] {
      ExpandFrame(view, view', s[..|s| - 1]);
    }
  }

  /** Changing one node of a level changes only its own block of children. */
  lemma ExpandUpdate(view: View, view': View, s: Level, p: nat)
    requires p < |s|
    requires forall i :: 0 <= i < |s| && i != p ==> KidsOf(view', s[i]) == KidsOf(view, s[i])
    ensures Expand(view', s) == Expand(view, s[..p]) + KidsOf(view', s[p]) + Expand(view, s[p + 1..])
    ensures Expand(view', s[..p]) == Expand(view, s[..p])
  {
    ExpandSplit(view', s, p);
    ExpandFrame(view, view', s[..p]);
    ExpandFrame(view, view', s[p + 1..]);
  }

  // ---------------------------------------------------------------- invariants

  function CapAt(leaf: bool, leafCap: nat): nat {
    if leaf then leafCap else INNER_SIZE
  }

  ghost predicate WellFormed(d: NodeData, leaf: bool) {
    if leaf then d.Leaf? && |d.vals| == |d.keys|
    else d.Inner? && |d.tree| == |d.keys| + 1
  }

  /** A live node of a level: right kind, not empty, not overfull; a leaf's critical key is its first key. */
  ghost predicate NodeOk(view: View, it: Item, leaf: bool, cap: nat) {
    && it.Sub? && it.id < |view|
    && WellFormed(view[it.id], leaf)
    && 1 <= |KidsOf(view, it)| <= cap
    && (leaf && it.ck.Some? ==> it.ck.value == view[it.id].keys[0])
  }

  ghost predicate HalfFull(view: View, it: Item, cap: nat) {
    2 * |KidsOf(view, it)| >= cap
  }

  /** All nodes of a level are sound and at least half full, except that the right-most may be small. */
  ghost predicate LevelOk(view: View, s: Level, leaf: bool, cap: nat) {
    && (forall i :: 0 <= i < |s| ==> NodeOk(view, s[i], leaf, cap))
    && (forall i :: 0 <= i < |s| - 1 ==> HalfFull(view, s[i], cap))
  }

  ghost predicate LevelSound(view: View, L: seq<Level>, leafCap: nat, k: nat)
    requires k + 1 < |L|
  {
    LevelOk(view, L[k], k + 2 == |L|, CapAt(k + 2 == |L|, leafCap))
  }

  ghost predicate Linked(view: View, L: seq<Level>, k: nat)
    requires k + 1 < |L|
  {
    L[k + 1] == Expand(view, L[k])
  }

  ghost predicate NodeLevel(view: View, L: seq<Level>, leafCap: nat, k: nat)
    requires k + 1 < |L|
  {
    LevelSound(view, L, leafCap, k) && Linked(view, L, k)
  }

  function Ids(s: Level): set<Node> {
    set i | 0 <= i < |s| && s[i].Sub? :: s[i].id
  }

  ghost predicate NoDup(s: Level) {
    forall i, j :: 0 <= i < j < |s| && s[i].Sub? && s[j].Sub? ==> s[i].id != s[j].id
  }

  ghost predicate Distinct(L: seq<Level>) {
    && (forall k :: 0 <= k < |L| - 1 ==> NoDup(L[k]))
    && (forall j, k :: 0 <= j < k < |L| - 1 ==> Ids(L[j]) !! Ids(L[k]))
  }

  ghost function AllIds(L: seq<Level>): set<Node> {
    set k, id | 0 <= k < |L| - 1 && id in Ids(L[k]) :: id
  }

  ghost predicate Sorted(s: Level) {
    && (forall i :: 0 <= i < |s| ==> s[i].Entry?)
    && (forall i, j :: 0 <= i < j < |s| ==> s[i].key < s[j].key)
  }

  lemma SortedRemoveAt(s: Level, q: nat)
    requires Sorted(s) && q < |s|
    ensures Sorted(RemoveAt(s, q))
  {
  }

  ghost predicate RootOk(L: seq<Level>, root: Node) {
    |L| >= 2 && L[0] == [Sub(None, root)]
  }

  /** The invariant of one non-empty tree; every leaf is at the same depth by construction. */
  ghost predicate TreeOk(view: View, L: seq<Level>, leafCap: nat, root: Node) {
    && RootOk(L, root)
    && (forall k :: 0 <= k < |L| - 1 ==> NodeLevel(view, L, leafCap, k))
    && (|L| > 2 ==> |L[1]| >= 2)
    && Sorted(L[|L| - 1])
    && Distinct(L)
  }

  /** `view'` differs from `view` at most on the slots in `X` and on new slots. */
  ghost predicate ChangedOnly(view: View, view': View, X: set<Node>) {
    && |view| <= |view'|
    && (forall n :: 0 <= n < |view| && n !in X ==> view'[n] == view[n])
  }

  /** A level none of whose nodes changed keeps its soundness and its children. */
  lemma LevelFrame(view: View, view': View, L: seq<Level>, leafCap: nat, k: nat, X: set<Node>)
    requires k + 1 < |L|
    requires LevelSound(view, L, leafCap, k)
    requires ChangedOnly(view, view', X) && Ids(L[k]) !! X
    ensures LevelSound(view', L, leafCap, k)
    ensures AgreeOn(view, view', L[k])
    ensures Expand(view', L[k]) == Expand(view, L[k])
    ensures Linked(view, L, k) == Linked(view', L, k)
  {
    forall i | 0 <= i < |L[k]|
      ensures view'[L[k][i].id] == view[L[k][i].id] && NodeOk(view, L[k][i], k + 2 == |L|, CapAt(k + 2 == |L|, leafCap))
    {
      assert NodeOk(view, L[k][i], k + 2 == |L|, CapAt(k + 2 == |L|, leafCap));
      assert L[k][i].id in Ids(L[k]);
    }
    assert AgreeOn(view, view', L[k]);
    ExpandFrame(view, view', L[k]);
    forall i | 0 <= i < |L[k]| - 1 ensures HalfFull(view', L[k][i], CapAt(k + 2 == |L|, leafCap)) {
      assert HalfFull(view, L[k][i], CapAt(k + 2 == |L|, leafCap));
    }
  }
}
