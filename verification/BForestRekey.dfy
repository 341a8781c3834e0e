/** Overwriting one key of an inner node changes the critical key along a chain of first children. */
module BForestRekey {
  import opened Prelude
  import opened BForestLevels
  import opened BForestBlocks
  import opened BForestPathTheory

  /**
   * Child `e + 1` of node `p` on level `bl`, and its first child, and so on down to level `k`:
   * `P[l]` is the index of that node on level `l`.
   */
  ghost predicate Chain(view: View, L: seq<Level>, P: seq<nat>, bl: nat, k: nat, p: nat, e: nat) {
    && bl < k < |L| - 1 && k < |P| && p < |L[bl]|
    && e + 1 < |KidsOf(view, L[bl][p])| && P[bl + 1] == Offset(view, L[bl], p) + e + 1
    && (forall l :: bl < l <= k ==> InChain(L, P, l))
    && (forall l :: bl < l < k ==> FirstInChain(view, L, P, l))
  }

  ghost predicate InChain(L: seq<Level>, P: seq<nat>, l: nat) {
    l < |L| && l < |P| && P[l] < |L[l]| && L[l][P[l]].Sub?
  }

  ghost predicate FirstInChain(view: View, L: seq<Level>, P: seq<nat>, l: nat) {
    l < |L| && l + 1 < |P| && P[l] < |L[l]| && P[l + 1] == Offset(view, L[l], P[l])
  }

  ghost function Rekeyed(s: Level, i: nat, key: Key): Level
    requires i < |s| && s[i].Sub?
  {
    s[i := Sub(Some(key), s[i].id)]
  }

  /** `L'` is `L` with the critical key along the chain replaced. */
  ghost predicate RekeyedLevels(L: seq<Level>, L': seq<Level>, P: seq<nat>, bl: nat, k: nat, key: Key) {
    && |L'| == |L|
    && (forall l :: 0 <= l < |L| && (l <= bl || k < l) ==> L'[l] == L[l])
    && (forall l :: bl < l <= k ==> InChain(L, P, l) && L'[l] == Rekeyed(L[l], P[l], key))
  }

  /** One item of the next level changes with one child of one node. */
  lemma ExpandPoint(view: View, view': View, s: Level, s': Level, i: nat, c: nat, y: Item)
    requires i < |s| == |s'| && forall j :: 0 <= j < |s| && j != i ==> KidsOf(view', s'[j]) == KidsOf(view, s[j])
    requires c < |KidsOf(view, s[i])| && KidsOf(view', s'[i]) == KidsOf(view, s[i])[c := y]
    ensures Offset(view, s, i) + c < |Expand(view, s)|
    ensures Expand(view', s') == Expand(view, s)[Offset(view, s, i) + c := y]
  {
    hide KidsOf, Expand;
    ExpandSplit(view, s, i);
    ExpandSplit(view', s', i);
    ExpandSame(view, view', s[..i], s'[..i]);
    ExpandSame(view, view', s[i + 1..], s'[i + 1..]);
    UpdateInBlock(Expand(view, s[..i]), KidsOf(view, s[i]), Expand(view, s[i + 1..]), c, y);
  }

  lemma UpdateInBlock<T>(a: seq<T>, b: seq<T>, d: seq<T>, c: nat, y: T)
    requires c < |b|
    ensures (a + b + d)[|a| + c := y] == a + b[c := y] + d
  {
  }

  /** Item lists with pairwise equal children have the same expansion. */
  lemma {:induction false} ExpandSame(view: View, view': View, s: Level, s': Level)
    requires |s| == |s'| && forall j :: 0 <= j < |s| ==> KidsOf(view', s'[j]) == KidsOf(view, s[j])
    ensures Expand(view', s') == Expand(view, s)
  {
    hide KidsOf;
    if s != [] {
      ExpandSame(view, view', s[..|s| - 1], s'[..|s| - 1]);
    }
  }

  /** The key `e` of an inner node is the critical key of its child `e + 1`. */
  lemma KidsRekey(view: View, it: Item, e: nat, key: Key)
    requires NodeOk(view, it, false, INNER_SIZE) && e + 1 < |KidsOf(view, it)|
    ensures e < |view[it.id].keys|
    ensures var view' := view[it.id := Inner(view[it.id].keys[e := key], view[it.id].tree)];
      && KidsOf(view', it) == KidsOf(view, it)[e + 1 := Sub(Some(key), view[it.id].tree[e + 1])]
      && NodeOk(view', it, false, INNER_SIZE)
  {
  }

  /** A new critical key of an inner node shows up at its first child. */
  lemma KidsInherit(view: View, it: Item, key: Key)
    requires NodeOk(view, it, false, INNER_SIZE)
    ensures KidsOf(view, it)[0].Sub?
    ensures KidsOf(view, Sub(Some(key), it.id)) == KidsOf(view, it)[0 := Sub(Some(key), KidsOf(view, it)[0].id)]
    ensures NodeOk(view, Sub(Some(key), it.id), false, INNER_SIZE)
  {
  }

  lemma IdsRekey(s: Level, i: nat, key: Key)
    requires i < |s| && s[i].Sub?
    ensures Ids(Rekeyed(s, i, key)) == Ids(s)
    ensures NoDup(s) ==> NoDup(Rekeyed(s, i, key))
  {
    var t := Rekeyed(s, i, key);
    assert forall j :: 0 <= j < |s| ==> t[j].Sub? == s[j].Sub? && (s[j].Sub? ==> t[j].id == s[j].id);
  }

  lemma DistinctRekey(L: seq<Level>, L': seq<Level>, P: seq<nat>, bl: nat, k: nat, key: Key)
    requires RekeyedLevels(L, L', P, bl, k, key) && k < |L| - 1
    ensures AllIds(L') == AllIds(L)
    ensures Distinct(L) ==> Distinct(L')
  {
    hide Ids, NoDup;
    forall l | 0 <= l < |L| - 1 ensures Ids(L'[l]) == Ids(L[l]) && (NoDup(L[l]) ==> NoDup(L'[l])) {
      if bl < l <= k {
        assert InChain(L, P, l);
        IdsRekey(L[l], P[l], key);
      }
    }
  }

  /** Soundness of an inner level does not depend on critical keys. */
  lemma LevelRekey(view: View, s: Level, i: nat, key: Key)
    requires LevelOk(view, s, false, INNER_SIZE) && i < |s| && s[i].Sub?
    ensures LevelOk(view, Rekeyed(s, i, key), false, INNER_SIZE)
  {
    hide KidsOf;
    var t := Rekeyed(s, i, key);
    assert NodeOk(view, s[i], false, INNER_SIZE);
    KidsInherit(view, s[i], key);
    forall j | 0 <= j < |t| ensures NodeOk(view, t[j], false, INNER_SIZE) && |KidsOf(view, t[j])| == |KidsOf(view, s[j])| {
      assert NodeOk(view, s[j], false, INNER_SIZE);
    }
    forall j | 0 <= j < |t| - 1 ensures HalfFull(view, t[j], INNER_SIZE) {
      assert HalfFull(view, s[j], INNER_SIZE);
    }
  }

  /** Overwriting the key at the top of a chain keeps all levels above the end of the chain in order. */
  lemma Rekey(view: View, view': View, L: seq<Level>, L': seq<Level>, leafCap: nat, P: seq<nat>, bl: nat, k: nat, p: nat, e: nat, key: Key)
    requires Chain(view, L, P, bl, k, p, e) && RekeyedLevels(L, L', P, bl, k, key) && Distinct(L)
    requires forall j :: 0 <= j < k ==> NodeLevel(view, L, leafCap, j)
    requires NodeOk(view, L[bl][p], false, INNER_SIZE) && e < |view[L[bl][p].id].keys|
    requires view' == view[L[bl][p].id := Inner(view[L[bl][p].id].keys[e := key], view[L[bl][p].id].tree)]
    ensures forall j :: 0 <= j < k ==> NodeLevel(view', L', leafCap, j)
    ensures forall j :: 0 <= j < |L| - 1 && j != bl ==> RekeyFrame(view, view', L, j)
  {
    hide Expand, KidsOf, HalfFull;
    var x := L[bl][p].id;
    assert x in Ids(L[bl]);
    forall j | 0 <= j < |L| - 1 && j != bl ensures RekeyFrame(view, view', L, j) {
      assert Ids(L[j]) !! Ids(L[bl]);
      FrameAgree(view, view', L[j], x);
    }
    forall j | 0 <= j < k ensures NodeLevel(view', L', leafCap, j) {
      assert NodeLevel(view, L, leafCap, j);
      if j < bl {
        LevelFrame(view, view', L, leafCap, j, {x});
      } else if j == bl {
        RekeyTop(view, view', L, L', leafCap, P, bl, k, p, e, key);
      } else {
        assert RekeyFrame(view, view', L, j) && Ids(L[j]) !! Ids(L[bl]);
        RekeyBelow(view, view', L, L', leafCap, P, bl, k, j, key, x);
      }
    }
  }

  /** The nodes of level `j` keep their children. */
  ghost predicate RekeyFrame(view: View, view': View, L: seq<Level>, j: nat)
    requires j < |L|
  {
    AgreeOn(view, view', L[j])
  }

  lemma FrameAgree(view: View, view': View, s: Level, x: Node)
    requires |view'| == |view| && forall n :: 0 <= n < |view| && n != x ==> view'[n] == view[n]
    requires x !in Ids(s)
    ensures AgreeOn(view, view', s)
  {
    forall i | 0 <= i < |s| ensures KidsOf(view', s[i]) == KidsOf(view, s[i]) {
      if s[i].Sub? { assert s[i].id in Ids(s); }
    }
  }

  lemma RekeyTop(view: View, view': View, L: seq<Level>, L': seq<Level>, leafCap: nat, P: seq<nat>, bl: nat,
                 k: nat, p: nat, e: nat, key: Key)
    requires Chain(view, L, P, bl, k, p, e) && RekeyedLevels(L, L', P, bl, k, key) && NoDup(L[bl])
    requires NodeLevel(view, L, leafCap, bl)
    requires NodeOk(view, L[bl][p], false, INNER_SIZE) && e < |view[L[bl][p].id].keys|
    requires view' == view[L[bl][p].id := Inner(view[L[bl][p].id].keys[e := key], view[L[bl][p].id].tree)]
    ensures NodeLevel(view', L', leafCap, bl)
  {
    hide Expand, KidsOf, HalfFull;
    var s, x := L[bl], L[bl][p].id;
    KidsRekey(view, s[p], e, key);
    assert p < |s| - 1 ==> HalfFull(view', s[p], INNER_SIZE) by {
      hide *;
      SameHalf(view, view', s, p, INNER_SIZE);
    }
    LevelUpdate(view, view', s, false, INNER_SIZE, p, {x});
    InnerKids(view, s[p], INNER_SIZE);
    KidAt(view, s, p, e + 1);
    assert InChain(L, P, bl + 1);
    ExpandPoint(view, view', s, s, p, e + 1, Sub(Some(key), view[x].tree[e + 1]));
  }

  lemma SameHalf(view: View, view': View, s: Level, p: nat, cap: nat)
    requires p < |s| && |KidsOf(view', s[p])| == |KidsOf(view, s[p])|
    requires forall i :: 0 <= i < |s| - 1 ==> HalfFull(view, s[i], cap)
    ensures p < |s| - 1 ==> HalfFull(view', s[p], cap)
  {
    assert p < |s| - 1 ==> HalfFull(view, s[p], cap);
  }

  lemma RekeyBelow(view: View, view': View, L: seq<Level>, L': seq<Level>, leafCap: nat, P: seq<nat>, bl: nat,
                   k: nat, j: nat, key: Key, x: Node)
    requires bl < j < k < |L| - 1 && RekeyedLevels(L, L', P, bl, k, key) && FirstInChain(view, L, P, j)
    requires NodeLevel(view, L, leafCap, j) && AgreeOn(view, view', L[j])
    requires ChangedOnly(view, view', {x}) && x !in Ids(L[j])
    ensures NodeLevel(view', L', leafCap, j)
  {
    hide Expand, KidsOf, HalfFull;
    LevelFrame(view, view', L, leafCap, j, {x});
    var s := L[j];
    assert InChain(L, P, j) && InChain(L, P, j + 1);
    LevelRekey(view', s, P[j], key);
    assert NodeOk(view', s[P[j]], false, INNER_SIZE);
    KidsInherit(view', s[P[j]], key);
    KidAt(view', s, P[j], 0);
    ExpandFrame(view, view', s[..P[j]]);
    ExpandPoint(view', view', s, L'[j], P[j], 0, Sub(Some(key), KidsOf(view', s[P[j]])[0].id));
  }

  /** Effect of giving item `i` of level `k` the critical key `key`: what changes and what does not. */
  ghost predicate RekeyPost(view: View, view': View, L: seq<Level>, L': seq<Level>, leafCap: nat, k: nat, i: nat, key: Key,
                            node: seq<Node>, entry: seq<nat>, pos: seq<nat>) {
    && |L'| == |L| && k < |L| - 1 && i < |L[k]| && L[k][i].Sub?
    && (forall j :: k < j < |L| ==> L'[j] == L[j]) && L'[0] == L[0]
    && L'[k] == Rekeyed(L[k], i, key) && |L'[1]| == |L[1]|
    && (forall j :: 0 <= j < k ==> NodeLevel(view', L', leafCap, j))
    && PathTo(view', L', node, entry, pos, k + 1)
    && (forall j :: k <= j < |L| - 1 ==> RekeyFrame(view, view', L, j))
    && AllIds(L') == AllIds(L) && Distinct(L') && |view'| == |view|
    && (exists x :: RekeyEdit(view, view', L, k, x))
  }

  ghost predicate RekeyEdit(view: View, view': View, L: seq<Level>, k: nat, x: Node) {
    && x in AllIds(L) && x < |view| == |view'| && !view'[x].Free? && ChangedOnly(view, view', {x})
    && forall j :: k <= j < |L| - 1 ==> x !in Ids(L[j])
  }

  /** A path whose nodes lie at or before the chain survives the change of critical keys. */
  lemma RekeyPath(view: View, view': View, L: seq<Level>, L': seq<Level>, P: seq<nat>, bl: nat, k: nat, e: nat, key: Key,
                  node: seq<Node>, entry: seq<nat>, pos: seq<nat>)
    requires PathTo(view, L, node, entry, pos, k + 1)
    requires bl < |pos| && k < |P|
    requires Chain(view, L, P, bl, k, pos[bl], e) && RekeyedLevels(L, L', P, bl, k, key)
    requires forall l :: bl < l <= k ==> pos[l] <= P[l]
    requires forall j :: 0 <= j < k && j != bl ==> RekeyFrame(view, view', L, j)
    requires forall i :: 0 <= i < |L[bl]| && i != pos[bl] ==> KidsOf(view', L[bl][i]) == KidsOf(view, L[bl][i])
    requires |KidsOf(view', L[bl][pos[bl]])| == |KidsOf(view, L[bl][pos[bl]])|
    requires forall j :: bl < j < k ==> RekeySize(view', L[j], P[j], key)
    ensures PathTo(view', L', node, entry, pos, k + 1)
  {
    hide Expand, KidsOf;
    forall l | 0 <= l < k + 1 ensures OnNode(L', node, pos, l) {
      assert OnNode(L, node, pos, l);
      if bl < l { assert InChain(L, P, l); }
    }
    forall l | 0 <= l < k ensures Link(view', L', entry, pos, l) {
      assert Link(view, L, entry, pos, l) && OnNode(L, node, pos, l);
      if bl < l { assert InChain(L, P, l); }
      assert L'[l][..pos[l]] == L[l][..pos[l]];
      if l != bl { assert RekeyFrame(view, view', L, l); }
      ExpandFrame(view, view', L[l][..pos[l]]);
      if bl < l { assert RekeySize(view', L[l], P[l], key); }
    }
  }

  /** A new critical key does not change the number of children. */
  ghost predicate RekeySize(view: View, s: Level, i: nat, key: Key) {
    i < |s| && s[i].Sub? && |KidsOf(view, Sub(Some(key), s[i].id))| == |KidsOf(view, s[i])|
  }

  lemma AnyRekeySize(view: View, s: Level, i: nat, key: Key)
    requires i < |s| && s[i].Sub?
    ensures RekeySize(view, s, i, key)
  {
  }

  /** All of the above for the key `e` of the node the path visits on level `bl`. */
  lemma RekeyDone(view: View, view': View, L: seq<Level>, L': seq<Level>, leafCap: nat, P: seq<nat>, bl: nat, k: nat, e: nat, key: Key,
                  node: seq<Node>, entry: seq<nat>, pos: seq<nat>)
    requires PathTo(view, L, node, entry, pos, k + 1) && UpperOk(view, L, leafCap, k)
    requires bl < |pos| && k < |P|
    requires Chain(view, L, P, bl, k, pos[bl], e) && RekeyedLevels(L, L', P, bl, k, key) && Distinct(L)
    requires forall l :: bl < l <= k ==> pos[l] <= P[l]
    requires node[bl] < |view| && view[node[bl]].Inner? && e < |view[node[bl]].keys|
    requires view' == view[node[bl] := Inner(view[node[bl]].keys[e := key], view[node[bl]].tree)]
    ensures RekeyPost(view, view', L, L', leafCap, k, P[k], key, node, entry, pos)
  {
    hide Expand, KidsOf, Ids, NoDup;
    VisitedInner(view, L, leafCap, node, entry, pos, k + 1, bl);
    var s, x := L[bl], node[bl];
    assert x in Ids(s) by { MemberId(s, pos[bl]); }
    DistinctElsewhere(L, bl, x);
    Rekey(view, view', L, L', leafCap, P, bl, k, pos[bl], e, key);
    KidsRekey(view, s[pos[bl]], e, key);
    OthersKeep(view, view', s, pos[bl], x);
    forall j | bl < j < k ensures RekeySize(view', L[j], P[j], key) {
      assert InChain(L, P, j);
      AnyRekeySize(view', L[j], P[j], key);
    }
    RekeyPath(view, view', L, L', P, bl, k, e, key, node, entry, pos);
    DistinctRekey(L, L', P, bl, k, key);
    assert InChain(L, P, k);
    assert bl == 0 ==> InChain(L, P, 1);
    assert x in AllIds(L);
    assert RekeyEdit(view, view', L, k, x);
  }

  lemma MemberId(s: Level, p: nat)
    requires p < |s| && s[p].Sub?
    ensures s[p].id in Ids(s)
  {
  }

  lemma OthersKeep(view: View, view': View, s: Level, p: nat, x: Node)
    requires p < |s| && NoDup(s) && s[p].Sub? && s[p].id == x
    requires |view'| == |view| && forall n :: 0 <= n < |view| && n != x ==> view'[n] == view[n]
    ensures forall i :: 0 <= i < |s| && i != p ==> KidsOf(view', s[i]) == KidsOf(view, s[i])
  {
    forall i | 0 <= i < |s| && i != p ensures KidsOf(view', s[i]) == KidsOf(view, s[i]) {
      if s[i].Sub? { IdsUnique(s, i, p); }
    }
  }
}
