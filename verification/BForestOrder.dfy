/** Key order: every inner key is the smallest key of the sub-tree to its right. */
module BForestOrder {
  import opened Prelude
  import opened BForestLevels
  import opened BForestPathTheory

  /** Smallest key below an item, where the tree records it. */
  function Low(it: Item): Option<Key> {
    match it
    case Sub(ck, _) => ck
    case Entry(key, _) => Some(key)
  }

  ghost predicate LowSorted(s: Level) {
    forall i, j :: 0 <= i < j < |s| && Low(s[i]).Some? && Low(s[j]).Some? ==> Low(s[i]).value < Low(s[j]).value
  }

  /** The first child carries on the critical key of its parent. */
  lemma FirstKidLow(view: View, it: Item, leaf: bool, cap: nat)
    requires NodeOk(view, it, leaf, cap)
    ensures it.ck.Some? ==> Low(KidsOf(view, it)[0]) == it.ck
  {
  }

  lemma FirstBelow(view: View, L: seq<Level>, leafCap: nat, l: nat, i: nat)
    requires l + 1 < |L| && NodeLevel(view, L, leafCap, l) && i < |L[l]|
    ensures L[l][i].Sub? && Offset(view, L[l], i) < |L[l + 1]|
    ensures L[l][i].ck.Some? ==> Low(L[l + 1][Offset(view, L[l], i)]) == L[l][i].ck
    ensures Offset(view, L[l], i) < Offset(view, L[l], i + 1) <= |L[l + 1]|
  {
    hide Expand, KidsOf, Low;
    assert NodeOk(view, L[l][i], l + 2 == |L|, CapAt(l + 2 == |L|, leafCap));
    FirstKidLow(view, L[l][i], l + 2 == |L|, CapAt(l + 2 == |L|, leafCap));
    KidAt(view, L[l], i, 0);
    OffsetStep(view, L[l], i);
  }

  lemma LowSortedUp(view: View, L: seq<Level>, leafCap: nat, l: nat)
    requires l + 1 < |L| && NodeLevel(view, L, leafCap, l) && LowSorted(L[l + 1])
    ensures LowSorted(L[l])
  {
    hide Expand, KidsOf, Offset;
    forall i, j | 0 <= i < j < |L[l]| && Low(L[l][i]).Some? && Low(L[l][j]).Some?
      ensures Low(L[l][i]).value < Low(L[l][j]).value
    {
      FirstBelow(view, L, leafCap, l, i);
      FirstBelow(view, L, leafCap, l, j);
      OffsetMono(view, L[l], i + 1, j);
    }
  }

  /** In a well-formed tree the critical keys of every level ascend. */
  lemma {:induction false} LevelsSorted(view: View, L: seq<Level>, leafCap: nat, root: Node, l: nat)
    requires TreeOk(view, L, leafCap, root) && l < |L|
    ensures LowSorted(L[l])
    decreases |L| - l
  {
    hide Expand, KidsOf, LevelSound, Linked;
    if l < |L| - 1 {
      LevelsSorted(view, L, leafCap, root, l + 1);
      assert NodeLevel(view, L, leafCap, l);
      LowSortedUp(view, L, leafCap, l);
    }
  }

  /** The keys of every node of a well-formed tree ascend, so it can be searched by bisection. */
  lemma NodeKeysSorted(view: View, L: seq<Level>, leafCap: nat, root: Node, l: nat, p: nat)
    requires TreeOk(view, L, leafCap, root) && l + 1 < |L| && p < |L[l]|
    ensures L[l][p].Sub? && L[l][p].id < |view|
    ensures WellFormed(view[L[l][p].id], l + 2 == |L|)
    ensures Ascending(view[L[l][p].id].keys)
  {
    hide Expand, KidsOf;
    LevelsSorted(view, L, leafCap, root, l + 1);
    assert NodeLevel(view, L, leafCap, l);
    var leaf, cap := l + 2 == |L|, CapAt(l + 2 == |L|, leafCap);
    assert NodeOk(view, L[l][p], leaf, cap);
    var d := view[L[l][p].id];
    if leaf { LeafKids(view, L[l][p], cap); } else { InnerKids(view, L[l][p], cap); }
    forall a, b | 0 <= a < b < |d.keys| ensures d.keys[a] < d.keys[b] {
      var shift := if leaf then 0 else 1;
      KidAt(view, L[l], p, a + shift);
      KidAt(view, L[l], p, b + shift);
    }
  }

  /** `key` belongs at or below position `q` of level `l`. */
  ghost predicate Bracket(L: seq<Level>, l: nat, q: nat, key: Key) {
    && l < |L| && q < |L[l]| && L[l][q].Sub?
    && (L[l][q].ck.Some? ==> L[l][q].ck.value <= key)
    && (q + 1 < |L[l]| ==> L[l][q + 1].Sub? && L[l][q + 1].ck.Some? && key < L[l][q + 1].ck.value)
  }

  /** Choosing the last child whose critical key is not above `key` keeps the bracket. */
  lemma BracketDown(view: View, L: seq<Level>, leafCap: nat, entry: seq<nat>, pos: seq<nat>, l: nat, key: Key)
    requires l + 2 < |L| && l < |entry| && l + 1 < |pos|
    requires Link(view, L, entry, pos, l) && NodeLevel(view, L, leafCap, l)
    requires Bracket(L, l, pos[l], key)
    requires NodeOk(view, L[l][pos[l]], false, INNER_SIZE)
    requires 0 < entry[l] <= |view[L[l][pos[l]].id].keys| ==> view[L[l][pos[l]].id].keys[entry[l] - 1] <= key
    requires entry[l] < |view[L[l][pos[l]].id].keys| ==> key < view[L[l][pos[l]].id].keys[entry[l]]
    ensures Bracket(L, l + 1, pos[l + 1], key)
  {
    hide Expand, KidsOf, Offset;
    InnerKids(view, L[l][pos[l]], INNER_SIZE);
    Below(view, L, entry, pos, l);
    RightNeighbour(view, L, leafCap, entry, pos, l);
    if entry[l] + 1 == |KidsOf(view, L[l][pos[l]])| && pos[l] + 1 < |L[l]| {
      assert NodeOk(view, L[l][pos[l] + 1], false, INNER_SIZE);
      InnerKids(view, L[l][pos[l] + 1], INNER_SIZE);
    }
  }

  /** Neighbours of an insert position `e` in the bracketing leaf `p`. */
  lemma BracketLeaf(view: View, L: seq<Level>, leafCap: nat, p: nat, e: nat, key: Key)
    requires |L| >= 2 && NodeLevel(view, L, leafCap, |L| - 2)
    requires Bracket(L, |L| - 2, p, key)
    requires NodeOk(view, L[|L| - 2][p], true, leafCap)
    requires e <= |view[L[|L| - 2][p].id].keys|
    requires e > 0 ==> view[L[|L| - 2][p].id].keys[e - 1] < key
    requires e < |view[L[|L| - 2][p].id].keys| ==> key < view[L[|L| - 2][p].id].keys[e]
    ensures Offset(view, L[|L| - 2], p) + e <= |L[|L| - 1]|
    ensures e > 0 ==> var q := Offset(view, L[|L| - 2], p) + e; L[|L| - 1][q - 1].Entry? && L[|L| - 1][q - 1].key < key
    ensures var q := Offset(view, L[|L| - 2], p) + e; q < |L[|L| - 1]| ==> L[|L| - 1][q].Entry? && key < L[|L| - 1][q].key
    ensures e == 0 ==> L[|L| - 2][p].ck == None
  {
    hide Expand, KidsOf;
    var s := L[|L| - 2];
    LeafKids(view, s[p], leafCap);
    OffsetStep(view, s, p);
    if e > 0 { KidAt(view, s, p, e - 1); }
    if e < |view[s[p].id].keys| {
      KidAt(view, s, p, e);
    } else if p + 1 < |s| {
      assert NodeOk(view, s[p + 1], true, leafCap);
      LeafKids(view, s[p + 1], leafCap);
      KidAt(view, s, p + 1, 0);
    }
  }

  // ---------------------------------------------------------------- inner keys

  lemma OffsetBound(view: View, L: seq<Level>, leafCap: nat, l: nat, p: nat)
    requires l + 1 < |L| && NodeLevel(view, L, leafCap, l) && p <= |L[l]|
    ensures Offset(view, L[l], p) <= |L[l + 1]|
  {
    hide Expand, KidsOf;
    if p < |L[l]| { FirstBelow(view, L, leafCap, l, p); } else { assert L[l][..p] == L[l]; }
  }

  /** Position of the first entry at or below position `p` of level `l`; the end of the entries for the end of a level. */
  ghost function FirstEntry(view: View, L: seq<Level>, leafCap: nat, root: Node, l: nat, p: nat): (r: nat)
    requires TreeOk(view, L, leafCap, root) && l < |L| && p <= |L[l]|
    ensures r <= |L[|L| - 1]|
    decreases |L| - l
  {
    if l + 1 == |L| then p
    else
      assert NodeLevel(view, L, leafCap, l);
      OffsetBound(view, L, leafCap, l, p);
      FirstEntry(view, L, leafCap, root, l + 1, Offset(view, L[l], p))
  }

  /** Every node has entries below it. */
  lemma {:induction false} FirstEntryAscends(view: View, L: seq<Level>, leafCap: nat, root: Node, l: nat, p: nat)
    requires TreeOk(view, L, leafCap, root) && l < |L| && p < |L[l]|
    ensures FirstEntry(view, L, leafCap, root, l, p) < FirstEntry(view, L, leafCap, root, l, p + 1)
    decreases |L| - l, 0
  {
    hide Expand, KidsOf, Offset, TreeOk;
    if l + 1 < |L| {
      LevelSoundAt(view, L, leafCap, root, l);
      FirstBelow(view, L, leafCap, l, p);
      EntriesAscend(view, L, leafCap, root, l + 1, Offset(view, L[l], p), Offset(view, L[l], p + 1));
    }
  }

  lemma LevelSoundAt(view: View, L: seq<Level>, leafCap: nat, root: Node, l: nat)
    requires TreeOk(view, L, leafCap, root) && l + 1 < |L|
    ensures NodeLevel(view, L, leafCap, l)
  {
  }

  lemma {:induction false} EntriesAscend(view: View, L: seq<Level>, leafCap: nat, root: Node, l: nat, p: nat, q: nat)
    requires TreeOk(view, L, leafCap, root) && l < |L| && p < q <= |L[l]|
    ensures FirstEntry(view, L, leafCap, root, l, p) < FirstEntry(view, L, leafCap, root, l, q)
    decreases |L| - l, q - p
  {
    hide TreeOk, FirstEntry;
    FirstEntryAscends(view, L, leafCap, root, l, p);
    if p + 1 < q { EntriesAscend(view, L, leafCap, root, l, p + 1, q); }
  }

  /** The critical key of a node is the key of the first entry below it. */
  lemma {:induction false} CritKeyIsFirst(view: View, L: seq<Level>, leafCap: nat, root: Node, l: nat, p: nat)
    requires TreeOk(view, L, leafCap, root) && l < |L| && p < |L[l]| && Low(L[l][p]).Some?
    ensures var a := FirstEntry(view, L, leafCap, root, l, p); var entries := L[|L| - 1];
      a < |entries| && entries[a].Entry? && entries[a].key == Low(L[l][p]).value
    decreases |L| - l
  {
    hide Expand, KidsOf, Offset;
    if l + 1 < |L| {
      LevelSoundAt(view, L, leafCap, root, l);
      FirstBelow(view, L, leafCap, l, p);
      CritKeyIsFirst(view, L, leafCap, root, l + 1, Offset(view, L[l], p));
    }
  }

  /**
   * Key `i` of an inner node is the smallest key in the sub-tree to its right, whose entries are
   * those from `a` to `b`; all entries to the left have smaller keys.
   */
  lemma InnerKeyIsLeast(view: View, L: seq<Level>, leafCap: nat, root: Node, l: nat, p: nat, i: nat)
    requires TreeOk(view, L, leafCap, root) && l + 2 < |L| && p < |L[l]|
    ensures L[l][p].Sub? && L[l][p].id < |view| && view[L[l][p].id].Inner?
    ensures i < |view[L[l][p].id].keys| ==>
      var (d, c, entries) := (view[L[l][p].id], Offset(view, L[l], p) + i + 1, L[|L| - 1]);
      && c < |L[l + 1]| && i + 1 < |d.tree| && L[l + 1][c] == Sub(Some(d.keys[i]), d.tree[i + 1])
      && var (a, b) := (FirstEntry(view, L, leafCap, root, l + 1, c), FirstEntry(view, L, leafCap, root, l + 1, c + 1));
      && a < b <= |entries| && entries[a].Entry? && entries[a].key == d.keys[i]
      && forall e :: 0 <= e < |entries| ==> entries[e].Entry? && (e < a <==> entries[e].key < d.keys[i])
  {
    hide Expand, KidsOf, FirstEntry;
    LevelSoundAt(view, L, leafCap, root, l);
    assert NodeOk(view, L[l][p], false, INNER_SIZE);
    InnerKids(view, L[l][p], INNER_SIZE);
    var d := view[L[l][p].id];
    if i < |d.keys| {
      KidAt(view, L[l], p, i + 1);
      var c := Offset(view, L[l], p) + i + 1;
      FirstEntryAscends(view, L, leafCap, root, l + 1, c);
      CritKeyIsFirst(view, L, leafCap, root, l + 1, c);
    }
  }
}
