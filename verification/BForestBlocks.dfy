/**
 * Edits of one node seen from the levels of the tree: the children of the node
 * are a block of the next level, and the edit replaces that block.
 */
module BForestBlocks {
  import opened Prelude
  import opened BForestLevels

  /** The next level of `s` with the children of node `p` replaced by `block`. */
  function Patched(view: View, s: Level, p: nat, block: Level): Level
    requires p < |s|
  {
    Expand(view, s[..p]) + block + Expand(view, s[p + 1..])
  }

  /** Every node level except `k` is sound and tied to the next one. */
  ghost predicate LevelsOkExcept(view: View, L: seq<Level>, leafCap: nat, k: int) {
    forall j :: 0 <= j < |L| - 1 && j != k ==> NodeLevel(view, L, leafCap, j)
  }

  /** Level `k + 1` already shows `block` below node `p` of level `k`, the pool does not yet. */
  ghost predicate Pending(view: View, L: seq<Level>, leafCap: nat, k: nat, p: nat, block: Level) {
    && k + 1 < |L| && p < |L[k]|
    && LevelsOkExcept(view, L, leafCap, k)
    && LevelSound(view, L, leafCap, k)
    && L[k + 1] == Patched(view, L[k], p, block)
  }

  lemma IdsUnique(s: Level, i: nat, j: nat)
    requires NoDup(s) && i < |s| && j < |s| && i != j && s[i].Sub? && s[j].Sub?
    ensures s[i].id != s[j].id
  {
  }

  lemma DistinctElsewhere(L: seq<Level>, k: nat, n: Node)
    requires Distinct(L) && k + 1 < |L| && n in Ids(L[k])
    ensures forall j :: 0 <= j < |L| - 1 && j != k ==> n !in Ids(L[j])
  {
  }

  /** Frame for the levels other than `k`. */
  lemma OtherLevels(view: View, view': View, L: seq<Level>, leafCap: nat, k: nat, X: set<Node>)
    requires LevelsOkExcept(view, L, leafCap, k)
    requires ChangedOnly(view, view', X)
    requires forall j :: 0 <= j < |L| - 1 && j != k ==> Ids(L[j]) !! X
    ensures LevelsOkExcept(view', L, leafCap, k)
  {
    forall j | 0 <= j < |L| - 1 && j != k ensures NodeLevel(view', L, leafCap, j) {
      assert NodeLevel(view, L, leafCap, j);
      LevelFrame(view, view', L, leafCap, j, X);
    }
  }

  /** Nodes of a level outside `X` keep their soundness and their children. */
  lemma LevelUpdate(view: View, view': View, s: Level, leaf: bool, cap: nat, p: nat, X: set<Node>)
    requires p < |s| && NoDup(s) && s[p].Sub?
    requires LevelOk(view, s, leaf, cap)
    requires ChangedOnly(view, view', X) && X * Ids(s) <= {s[p].id}
    requires NodeOk(view', s[p], leaf, cap)
    requires p < |s| - 1 ==> HalfFull(view', s[p], cap)
    ensures LevelOk(view', s, leaf, cap)
    ensures forall i :: 0 <= i < |s| && i != p ==> KidsOf(view', s[i]) == KidsOf(view, s[i])
  {
    forall i | 0 <= i < |s| && i != p ensures NodeOk(view', s[i], leaf, cap) && KidsOf(view', s[i]) == KidsOf(view, s[i]) {
      assert NodeOk(view, s[i], leaf, cap);
      assert s[i].id in Ids(s);
      IdsUnique(s, i, p);
      assert s[i].id !in X * Ids(s);
    }
    forall i | 0 <= i < |s| - 1 ensures HalfFull(view', s[i], cap) {
      assert HalfFull(view, s[i], cap);
    }
  }

  lemma PatchedUpdate(view: View, view': View, s: Level, p: nat, block: Level)
    requires p < |s|
    requires forall i :: 0 <= i < |s| && i != p ==> KidsOf(view', s[i]) == KidsOf(view, s[i])
    ensures Patched(view', s, p, block) == Patched(view, s, p, block)
    ensures Expand(view', s) == Patched(view, s, p, KidsOf(view', s[p]))
  {
    ExpandUpdate(view, view', s, p);
    ExpandFrame(view, view', s[p + 1..]);
  }

  /** The node at position `p` of level `k` takes on the pending block. */
  lemma BlockDone(view: View, view': View, L: seq<Level>, leafCap: nat, k: nat, p: nat, block: Level)
    requires Pending(view, L, leafCap, k, p, block)
    requires Distinct(L)
    requires L[k][p].Sub? && ChangedOnly(view, view', {L[k][p].id})
    requires KidsOf(view', L[k][p]) == block
    requires NodeOk(view', L[k][p], k + 2 == |L|, CapAt(k + 2 == |L|, leafCap))
    requires p < |L[k]| - 1 ==> HalfFull(view', L[k][p], CapAt(k + 2 == |L|, leafCap))
    ensures LevelsOkExcept(view', L, leafCap, -1)
  {
    var s := L[k];
    assert LevelsOkExcept(view', L, leafCap, k) by {
      assert s[p].id in Ids(s);
      DistinctElsewhere(L, k, s[p].id);
      OtherLevels(view, view', L, leafCap, k, {s[p].id});
    }
    LevelUpdate(view, view', s, k + 2 == |L|, CapAt(k + 2 == |L|, leafCap), p, {s[p].id});
    PatchedUpdate(view, view', s, p, block);
    forall j | 0 <= j < |L| - 1 ensures NodeLevel(view', L, leafCap, j) {
      if j == k { assert LevelSound(view', L, leafCap, k) && Linked(view', L, k); }
    }
  }

  // ---------------------------------------------------------------- a new node in a level

  lemma ExpandInsert(view: View, s: Level, p: nat, node: Item)
    requires p < |s|
    ensures Expand(view, InsertAt(s, p + 1, node)) == Patched(view, s, p, KidsOf(view, s[p]) + KidsOf(view, node))
  {
    calc {
      Expand(view, InsertAt(s, p + 1, node));
      { assert InsertAt(s, p + 1, node) == s[..p + 1] + [node] + s[p + 1..]; }
      Expand(view, s[..p + 1] + [node] + s[p + 1..]);
      { ExpandConcat(view, s[..p + 1] + [node], s[p + 1..]); }
      Expand(view, s[..p + 1] + [node]) + Expand(view, s[p + 1..]);
      { ExpandConcat(view, s[..p + 1], [node]); ExpandOne(view, node); ExpandSplit(view, s, p); }
      Expand(view, s[..p]) + KidsOf(view, s[p]) + KidsOf(view, node) + Expand(view, s[p + 1..]);
      { JoinBlocks(Expand(view, s[..p]), KidsOf(view, s[p]), KidsOf(view, node), Expand(view, s[p + 1..])); }
      Patched(view, s, p, KidsOf(view, s[p]) + KidsOf(view, node));
    }
  }

  lemma JoinBlocks<T>(a: seq<T>, b: seq<T>, b': seq<T>, c: seq<T>)
    ensures a + b + b' + c == a + (b + b') + c
  {
  }

  lemma InsertInBlock<T>(a: seq<T>, b: seq<T>, c: seq<T>, at: nat, x: T)
    requires at <= |b|
    ensures InsertAt(a + b + c, |a| + at, x) == a + InsertAt(b, at, x) + c
  {
    assert (a + b + c)[..|a| + at] == a + b[..at];
    assert (a + b + c)[|a| + at..] == b[at..] + c;
  }

  /** An item placed among the children of node `p`, seen on the next level. */
  lemma InsertBelow(view: View, s: Level, p: nat, at: nat, ins: Item)
    requires p < |s| && at <= |KidsOf(view, s[p])|
    ensures Offset(view, s, p) + at <= |Expand(view, s)|
    ensures InsertAt(Expand(view, s), Offset(view, s, p) + at, ins) == Patched(view, s, p, InsertAt(KidsOf(view, s[p]), at, ins))
  {
    var a, b, c := Expand(view, s[..p]), KidsOf(view, s[p]), Expand(view, s[p + 1..]);
    assert Expand(view, s) == a + b + c by { ExpandSplit(view, s, p); }
    assert InsertAt(a + b + c, |a| + at, ins) == a + InsertAt(b, at, ins) + c by { InsertInBlock(a, b, c, at, ins); }
  }

  lemma LevelGrow(view: View, s: Level, leaf: bool, cap: nat, p: nat, node: Item)
    requires p < |s|
    requires LevelOk(view, s, leaf, cap)
    requires HalfFull(view, s[p], cap)
    requires NodeOk(view, node, leaf, cap) && HalfFull(view, node, cap)
    ensures LevelOk(view, InsertAt(s, p + 1, node), leaf, cap)
  {
    hide NodeOk, HalfFull;
    var t := InsertAt(s, p + 1, node);
    forall i | 0 <= i < |t| ensures NodeOk(view, t[i], leaf, cap) {
      if i <= p {
        assert t[i] == s[i] && NodeOk(view, s[i], leaf, cap);
      } else if i > p + 1 {
        assert t[i] == s[i - 1] && NodeOk(view, s[i - 1], leaf, cap);
      } else {
        assert t[i] == node;
      }
    }
    forall i | 0 <= i < |t| - 1 ensures HalfFull(view, t[i], cap) {
      if i < p {
        assert t[i] == s[i] && HalfFull(view, s[i], cap);
      } else if i > p + 1 {
        assert t[i] == s[i - 1] && HalfFull(view, s[i - 1], cap);
      } else {
        assert t[i] == if i == p then s[p] else node;
      }
    }
  }

  lemma IdsInsert(s: Level, i: nat, node: Item)
    requires i <= |s| && node.Sub?
    ensures Ids(InsertAt(s, i, node)) == Ids(s) + {node.id}
  {
    var t := InsertAt(s, i, node);
    assert t[i] == node;
    forall j | 0 <= j < |s| && s[j].Sub? ensures s[j].id in Ids(t) {
      assert t[if j < i then j else j + 1] == s[j];
    }
  }

  lemma NoDupInsert(s: Level, i: nat, node: Item)
    requires i <= |s| && node.Sub? && NoDup(s) && node.id !in Ids(s)
    ensures NoDup(InsertAt(s, i, node))
  {
  }

  lemma DistinctInsert(L: seq<Level>, k: nat, i: nat, node: Item)
    requires k + 1 < |L| && i <= |L[k]| && node.Sub?
    requires Distinct(L) && node.id !in AllIds(L)
    ensures Distinct(L[k := InsertAt(L[k], i, node)])
    ensures AllIds(L[k := InsertAt(L[k], i, node)]) == AllIds(L) + {node.id}
  {
    var L' := L[k := InsertAt(L[k], i, node)];
    IdsInsert(L[k], i, node);
    assert forall j :: 0 <= j < |L| - 1 ==> Ids(L[j]) <= AllIds(L);
    NoDupInsert(L[k], i, node);
    assert forall j :: 0 <= j < |L| - 1 && j != k ==> L'[j] == L[j];
    assert node.id in Ids(L'[k]);
    assert forall j :: 0 <= j < |L| - 1 ==> Ids(L[j]) <= Ids(L'[j]);
  }

  /** The full node at position `p` of level `k` is split in two while taking the pending block. */
  lemma BlockDoneSplit(view: View, view': View, L: seq<Level>, leafCap: nat, k: nat, p: nat, block: Level, node: Item)
    requires Pending(view, L, leafCap, k, p, block)
    requires Distinct(L)
    requires L[k][p].Sub? && node.Sub? && node.id !in AllIds(L)
    requires ChangedOnly(view, view', {L[k][p].id, node.id})
    requires KidsOf(view', L[k][p]) + KidsOf(view', node) == block
    requires NodeOk(view', L[k][p], k + 2 == |L|, CapAt(k + 2 == |L|, leafCap)) && HalfFull(view', L[k][p], CapAt(k + 2 == |L|, leafCap))
    requires NodeOk(view', node, k + 2 == |L|, CapAt(k + 2 == |L|, leafCap)) && HalfFull(view', node, CapAt(k + 2 == |L|, leafCap))
    ensures LevelsOkExcept(view', L[k := InsertAt(L[k], p + 1, node)], leafCap, k - 1)
    ensures k > 0 ==> LevelSound(view', L, leafCap, k - 1) && Linked(view', L, k - 1)
  {
    var s, leaf, cap := L[k], k + 2 == |L|, CapAt(k + 2 == |L|, leafCap);
    var L' := L[k := InsertAt(s, p + 1, node)];
    var X := {s[p].id, node.id};
    assert X * Ids(s) <= {s[p].id} && forall j :: 0 <= j < |L| - 1 && j != k ==> Ids(L[j]) !! X by {
      assert s[p].id in Ids(s);
      DistinctElsewhere(L, k, s[p].id);
      assert forall j :: 0 <= j < |L| - 1 ==> Ids(L[j]) <= AllIds(L);
    }
    assert LevelsOkExcept(view', L, leafCap, k) by {
      OtherLevels(view, view', L, leafCap, k, X);
    }
    LevelUpdate(view, view', s, leaf, cap, p, X);
    assert LevelSound(view', L', leafCap, k) by {
      LevelGrow(view', s, leaf, cap, p, node);
    }
    assert Linked(view', L', k) by {
      PatchedUpdate(view, view', s, p, block);
      ExpandInsert(view', s, p, node);
    }
    forall j | 0 <= j < |L'| - 1 && j != k - 1 ensures NodeLevel(view', L', leafCap, j) {
      if j != k { assert NodeLevel(view', L, leafCap, j); }
    }
    if k > 0 {
      assert NodeLevel(view', L, leafCap, k - 1);
    }
  }
}
