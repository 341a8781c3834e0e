/** Removal at the cursor, with healing of nodes that became too small. */
module BForestRemove {
  import opened Prelude
  import opened BForestLevels
  import opened BForestNode
  import opened BForestPool
  import opened BForestKids
  import opened BForestBlocks
  import opened BForestPathTheory
  import opened BForestPath
  import opened BForestFrame
  import opened BForestRekey
  import opened BForestRemoveTheory

  /** `L` with item `P[l]` of every level `l` in `(bl, k]` given the critical key `key`. */
  ghost function RekeyLevels(L: seq<Level>, P: seq<nat>, bl: nat, k: nat, key: Key): seq<Level> {
    seq(|L|, l requires 0 <= l < |L| => if bl < l <= k && InChain(L, P, l) then Rekeyed(L[l], P[l], key) else L[l])
  }

  lemma RekeyLevelsOk(L: seq<Level>, P: seq<nat>, bl: nat, k: nat, key: Key)
    requires k < |L| && forall l :: bl < l <= k ==> InChain(L, P, l)
    ensures RekeyedLevels(L, RekeyLevels(L, P, bl, k, key), P, bl, k, key)
  {
  }

  ghost function Shifted(pos: seq<nat>): seq<nat> {
    seq(|pos|, l requires 0 <= l < |pos| => pos[l] + 1)
  }

  /** The nodes right of the path, from its branching level down, form a chain. */
  lemma RightIsChain(view: View, L: seq<Level>, leafCap: nat, node: seq<Node>, entry: seq<nat>, pos: seq<nat>, P: seq<nat>, bl: nat, k: nat)
    requires PathTo(view, L, node, entry, pos, k + 1) && UpperOk(view, L, leafCap, k) && k < |L| - 1
    requires bl < k && entry[bl] + 1 < EntriesAt(view, L, pos, bl) && |P| == |pos|
    requires forall l :: bl < l < k ==> entry[l] + 1 == EntriesAt(view, L, pos, l)
    requires forall l :: 0 <= l < |pos| ==> P[l] == pos[l] + 1
    requires pos[k] + 1 < |L[k]| && L[k][pos[k] + 1].Sub?
    ensures Chain(view, L, P, bl, k, pos[bl], entry[bl])
  {
    hide Expand, KidsOf, Offset;
    RightChain(view, L, leafCap, node, entry, pos, bl, k);
    assert Link(view, L, entry, pos, bl) && OnNode(L, node, pos, bl);
    forall l | bl < l <= k ensures InChain(L, P, l) {
      if l < k { assert RightFirst(view, L, pos, l); }
    }
    forall l | bl < l < k ensures FirstInChain(view, L, P, l) {
      assert RightFirst(view, L, pos, l);
    }
  }

  /** The nodes of the path itself, below its last turn to the right, form a chain. */
  lemma LeftIsChain(view: View, L: seq<Level>, leafCap: nat, node: seq<Node>, entry: seq<nat>, pos: seq<nat>, bl: nat, k: nat)
    requires PathTo(view, L, node, entry, pos, k + 1) && UpperOk(view, L, leafCap, k) && k < |L| - 1
    requires bl < k && 0 < entry[bl] < EntriesAt(view, L, pos, bl)
    requires forall l :: bl < l < k ==> entry[l] == 0
    ensures Chain(view, L, pos, bl, k, pos[bl], entry[bl] - 1)
  {
    hide Expand, KidsOf, Offset;
    assert Link(view, L, entry, pos, bl) && OnNode(L, node, pos, bl);
    forall l | bl < l <= k ensures InChain(L, pos, l) {
      assert OnNode(L, node, pos, l);
    }
    forall l | bl < l < k ensures FirstInChain(view, L, pos, l) {
      assert Link(view, L, entry, pos, l) && OnNode(L, node, pos, l);
    }
  }

  /** Set the critical key of the right sibling of the current node at `level`. */
  method UpdateRightCritKey(path: Path, level: nat, critKey: Key, pool: NodePool, ghost L: seq<Level>) returns (ghost L': seq<Level>)
    requires Ready(path, pool) && level < MAX_PATH && level + 1 < |L| && Distinct(L)
    requires path.At(pool.view, L, level + 1) && UpperOk(pool.view, L, pool.leafCap, level)
    requires path.pos[level] + 1 < |L[level]| && L[level][path.pos[level] + 1].Sub?
    modifies pool.Repr
    ensures Ready(path, pool) && pool.Repr == old(pool.Repr)
    ensures RekeyPost(old(pool.view), pool.view, L, L', pool.leafCap, level, path.pos[level] + 1, critKey, path.node[..], path.entry[..], path.pos)
  {
    hide Expand, KidsOf, Offset, RekeyPost, Rekeyed;
    var branch := path.RightSiblingBranchLevel(level, pool, L);
    var bl := branch.value;
    ghost var view, P := pool.view, Shifted(path.pos);
    VisitedInner(view, L, pool.leafCap, path.node[..], path.entry[..], path.pos, level + 1, bl);
    RightIsChain(view, L, pool.leafCap, path.node[..], path.entry[..], path.pos, P, bl, level);
    L' := RekeyLevels(L, P, bl, level, critKey);
    RekeyLevelsOk(L, P, bl, level, critKey);
    pool.SetKey(path.node[bl], path.entry[bl], critKey);
    RekeyDone(view, pool.view, L, L', pool.leafCap, P, bl, level, path.entry[bl], critKey, path.node[..], path.entry[..], path.pos);
  }

  /** Make the first key of the current leaf its critical key, unless it is the left-most leaf. */
  method UpdateCritKey(path: Path, pool: NodePool, ghost L: seq<Level>) returns (ghost L': seq<Level>)
    requires Ready(path, pool) && |L| >= 2 && path.size == |L| - 1 && Distinct(L)
    requires path.At(pool.view, L, path.size) && UpperOk(pool.view, L, pool.leafCap, path.size - 1)
    requires path.node[path.size - 1] < |pool.view| && pool.view[path.node[path.size - 1]].Leaf?
    requires |pool.view[path.node[path.size - 1]].keys| > 0
    modifies pool.Repr
    ensures Ready(path, pool) && pool.Repr == old(pool.Repr)
    ensures path.pos[path.size - 1] < |L[path.size - 1]| && L[path.size - 1][path.pos[path.size - 1]].Sub?
    ensures L[path.size - 1][path.pos[path.size - 1]].ck == None ==> L' == L && pool.view == old(pool.view)
    ensures L[path.size - 1][path.pos[path.size - 1]].ck.Some? ==>
      RekeyPost(old(pool.view), pool.view, L, L', pool.leafCap, path.size - 1, path.pos[path.size - 1],
                old(pool.view[path.node[path.size - 1]].keys[0]), path.node[..], path.entry[..], path.pos)
  {
    hide Expand, KidsOf, Offset, RekeyPost, Rekeyed;
    var level := path.size - 1;
    var branch := path.LeftSiblingBranchLevel(level, pool.view, L, pool.leafCap);
    L' := L;
    if branch.Some? {
      var bl := branch.value;
      ghost var view := pool.view;
      LeftIsChain(view, L, pool.leafCap, path.node[..], path.entry[..], path.pos, bl, level);
      var critKey := pool.LeafKey(path.node[level], 0);
      L' := RekeyLevels(L, path.pos, bl, level, critKey);
      RekeyLevelsOk(L, path.pos, bl, level, critKey);
      pool.SetKey(path.node[bl], path.entry[bl] - 1, critKey);
      RekeyDone(view, pool.view, L, L', pool.leafCap, path.pos, bl, level, path.entry[bl] - 1, critKey,
                path.node[..], path.entry[..], path.pos);
    }
  }

  // ---------------------------------------------------------------- balancing with the right sibling

  /** The right sibling has taken all children of the node. */
  ghost predicate JoinedRight(view: View, view1: View, it: Item, jt: Item, leaf: bool, cap: nat) {
    && it.Sub? && jt.Sub? && NodeOk(view1, Sub(it.ck, jt.id), leaf, cap)
    && KidsOf(view1, Sub(it.ck, jt.id)) == KidsOf(view, it) + KidsOf(view, jt)
  }

  /** The two siblings have shared out their children, and `key` now separates them. */
  ghost predicate SharedOut(view: View, view1: View, it: Item, jt: Item, leaf: bool, cap: nat, key: Key) {
    && it.Sub? && jt.Sub?
    && NodeOk(view1, it, leaf, cap) && HalfFull(view1, it, cap)
    && NodeOk(view1, Sub(Some(key), jt.id), leaf, cap) && HalfFull(view1, Sub(Some(key), jt.id), cap)
    && |KidsOf(view1, it)| > |KidsOf(view, it)|
    && KidsOf(view1, it) + KidsOf(view1, Sub(Some(key), jt.id)) == KidsOf(view, it) + KidsOf(view, jt)
  }

  /** Children of two inner nodes after balancing. */
  lemma InnersKids(l: NodeData, critKey: Key, r: NodeData, l': NodeData, r': NodeData, ck: Option<Key>, newCrit: Option<Key>)
    requires WellFormed(l, false) && WellFormed(r, false) && InnersBalanced(l, critKey, r, l', r', newCrit)
    requires 2 * |l.tree| < INNER_SIZE && 1 <= |r.tree| <= INNER_SIZE
    ensures l'.Inner? && WellFormed(r', false)
    ensures newCrit.None? ==> Kids(r', ck) == Kids(l, ck) + Kids(r, Some(critKey)) && |r'.tree| <= INNER_SIZE
    ensures newCrit.Some? ==> WellFormed(l', false) && Kids(l', ck) + Kids(r', newCrit) == Kids(l, ck) + Kids(r, Some(critKey))
    ensures newCrit.Some? ==> |l.tree| < |l'.tree| <= INNER_SIZE <= 2 * |l'.tree| && |r'.tree| <= INNER_SIZE <= 2 * |r'.tree|
  {
    hide Kids;
    var ks, ts := l.keys + [critKey] + r.keys, l.tree + r.tree;
    KidsInnerJoin(l, critKey, r, ck);
    if newCrit.Some? {
      var goal := (|ts| + 1) / 2;
      KidsInnerSplit(ks, ts, ck, goal);
      KidsLength(Inner(ks, ts), ck);
      HalvesJoin(Kids(Inner(ks, ts), ck), goal, Kids(l', ck), Kids(r', newCrit));
    }
  }

  lemma LeavesKids(l: NodeData, r: NodeData, l': NodeData, r': NodeData, cap: nat, ck: Option<Key>, ck': Option<Key>, newCrit: Option<Key>)
    requires WellFormed(l, true) && WellFormed(r, true) && LeavesBalanced(cap, l, r, l', r', newCrit)
    requires 2 * |l.keys| < cap && 1 <= |l.keys| && 1 <= |r.keys| <= cap
    ensures l'.Leaf? && WellFormed(r', true)
    ensures newCrit.None? ==> Kids(r', ck) == Kids(l, ck) + Kids(r, ck') && |r'.keys| <= cap && r'.keys[0] == l.keys[0]
    ensures newCrit.Some? ==> WellFormed(l', true) && Kids(l', ck) + Kids(r', newCrit) == Kids(l, ck) + Kids(r, ck')
    ensures newCrit.Some? ==> |l.keys| < |l'.keys| <= cap <= 2 * |l'.keys| && |r'.keys| <= cap <= 2 * |r'.keys|
    ensures newCrit.Some? ==> l'.keys[0] == l.keys[0] && newCrit.value == r'.keys[0]
  {
    hide Kids;
    var ks, vs := l.keys + r.keys, l.vals + r.vals;
    KidsLeafJoin(l, r, ck, ck');
    if newCrit.Some? {
      var goal := (|ks| + 1) / 2;
      KidsLeafSplit(ks, vs, ck, newCrit, goal);
      KidsLength(Leaf(ks, vs), ck);
      HalvesJoin(Kids(Leaf(ks, vs), ck), goal, Kids(l', ck), Kids(r', newCrit));
    }
  }

  lemma InnersOutcome(view: View, view1: View, it: Item, jt: Item, newCrit: Option<Key>)
    requires NodeOk(view, it, false, INNER_SIZE) && NodeOk(view, jt, false, INNER_SIZE) && jt.ck.Some?
    requires 2 * |KidsOf(view, it)| < INNER_SIZE && |view1| == |view|
    requires InnersBalanced(view[it.id], jt.ck.value, view[jt.id], view1[it.id], view1[jt.id], newCrit)
    ensures newCrit.None? ==> JoinedRight(view, view1, it, jt, false, INNER_SIZE)
    ensures newCrit.Some? ==> SharedOut(view, view1, it, jt, false, INNER_SIZE, newCrit.value)
    ensures !view1[it.id].Free? && !view1[jt.id].Free?
  {
    hide InnersBalanced;
    InnersKids(view[it.id], jt.ck.value, view[jt.id], view1[it.id], view1[jt.id], it.ck, newCrit);
  }

  lemma LeavesOutcome(view: View, view1: View, it: Item, jt: Item, cap: nat, newCrit: Option<Key>)
    requires NodeOk(view, it, true, cap) && NodeOk(view, jt, true, cap)
    requires 2 * |KidsOf(view, it)| < cap && |view1| == |view|
    requires LeavesBalanced(cap, view[it.id], view[jt.id], view1[it.id], view1[jt.id], newCrit)
    ensures newCrit.None? ==> JoinedRight(view, view1, it, jt, true, cap)
    ensures newCrit.Some? ==> SharedOut(view, view1, it, jt, true, cap, newCrit.value)
    ensures !view1[it.id].Free? && !view1[jt.id].Free?
  {
    hide LeavesBalanced;
    LeavesKids(view[it.id], view[jt.id], view1[it.id], view1[jt.id], cap, it.ck, jt.ck, newCrit);
  }

  lemma KidsLength(d: NodeData, ck: Option<Key>)
    ensures WellFormed(d, false) ==> |Kids(d, ck)| == |d.tree|
    ensures WellFormed(d, true) ==> |Kids(d, ck)| == |d.keys|
  {
  }

  lemma HalvesJoin<T>(s: seq<T>, m: nat, a: seq<T>, b: seq<T>)
    requires m <= |s| && a == s[..m] && b == s[m..]
    ensures a + b == s
  {
  }

  // ---------------------------------------------------------------- healing

  ghost predicate Healing(job: Job, path: Path, pool: NodePool, L: seq<Level>, k: nat, q: nat)
    reads path, path.Repr(), pool, pool.Repr
  {
    && Ready(path, pool) && pool.leafCap == job.leafCap && path.size == |L| - 1
    && HealState(job, pool.view, L, path.node[..], path.entry[..], path.pos, k, q)
  }

  /** Number of children of the node the path visits on level `k`. */
  ghost function KidCount(path: Path, pool: NodePool, L: seq<Level>, k: nat): nat
    reads path, pool
  {
    EntriesAt(pool.view, L, path.pos, k)
  }

  ghost predicate Vacated(job: Job, path: Path, pool: NodePool, L: seq<Level>, k: nat, q: nat)
    reads path, path.Repr(), pool, pool.Repr
  {
    && Ready(path, pool) && pool.leafCap == job.leafCap && path.size == |L| - 1
    && k < |L| && k < |path.pos| && path.pos[k] < |L[k]|
    && VacState(job, pool.view, L, path.node[..], path.entry[..], path.pos, k, DropNode(L[k], path.pos[k]), q)
  }

  ghost predicate Healed(job: Job, path: Path, pool: NodePool, L: seq<Level>, k: nat, q: nat)
    reads path, path.Repr(), pool, pool.Repr
  {
    && Ready(path, pool) && pool.leafCap == job.leafCap
    && HealDone(job, pool.view, L, path.node[..], path.entry[..], path.pos, path.size, k, q)
  }

  lemma HealFacts(job: Job, view: View, L: seq<Level>, node: seq<Node>, entry: seq<nat>, pos: seq<nat>, k: nat, q: nat)
    requires HealState(job, view, L, node, entry, pos, k, q)
    ensures UpperOk(view, L, job.leafCap, k) && Distinct(L)
    ensures pos[k] < |L[k]| && L[k][pos[k]].Sub? && node[k] == L[k][pos[k]].id && node[k] < |view|
    ensures |KidsOf(view, L[k][pos[k]])| > 0 ==> NodeOk(view, L[k][pos[k]], k + 2 == |L|, CapAt(k + 2 == |L|, job.leafCap))
    ensures pos[k] + 1 < |L[k]| ==>
      NodeOk(view, L[k][pos[k] + 1], k + 2 == |L|, CapAt(k + 2 == |L|, job.leafCap)) && L[k][pos[k] + 1].id != node[k]
    ensures k == 0 ==> |L[k]| == 1
  {
    hide Expand, KidsOf, Offset, NodeOk, HalfFull, Replaced;
    assert OnNode(L, node, pos, k);
    if pos[k] + 1 < |L[k]| { NextSub(view, L[k], pos[k] + 1, k + 2 == |L|, CapAt(k + 2 == |L|, job.leafCap)); IdsUnique(L[k], pos[k], pos[k] + 1); }
  }

  lemma NextSub(view: View, s: Level, i: nat, leaf: bool, cap: nat)
    requires i < |s| && NodeOk(view, s[i], leaf, cap)
    ensures s[i].Sub?
  {
  }

  /** Let the current node at `level` and its right sibling exchange children. */
  method BalanceWithRight(path: Path, level: nat, critKey: Key, rhs: Node, pool: NodePool, ghost L: seq<Level>,
                          ghost q: nat, ghost job: Job)
    returns (newCrit: Option<Key>)
    requires Healing(job, path, pool, L, level, q)
    requires 0 < KidCount(path, pool, L, level) && 2 * KidCount(path, pool, L, level) < CapAt(level + 2 == |L|, job.leafCap)
    requires path.pos[level] + 1 < |L[level]| && L[level][path.pos[level] + 1] == Sub(Some(critKey), rhs)
    modifies pool.Repr
    ensures Ready(path, pool) && pool.Repr == old(pool.Repr)
    ensures BalanceEdit(old(pool.view), pool.view, L, level, path.pos[level], rhs)
    ensures newCrit.None? ==>
      var it, jt := L[level][path.pos[level]], L[level][path.pos[level] + 1];
      JoinedRight(old(pool.view), pool.view, it, jt, level + 2 == |L|, CapAt(level + 2 == |L|, job.leafCap))
    ensures newCrit.Some? ==>
      var it, jt := L[level][path.pos[level]], L[level][path.pos[level] + 1];
      SharedOut(old(pool.view), pool.view, it, jt, level + 2 == |L|, CapAt(level + 2 == |L|, job.leafCap), newCrit.value)
  {
    hide Expand, KidsOf, Offset, HalfFull, JoinedRight, SharedOut, LeavesBalanced, InnersBalanced;
    ghost var view, it, jt := pool.view, L[level][path.pos[level]], L[level][path.pos[level] + 1];
    HealFacts(job, view, L, path.node[..], path.entry[..], path.pos, level, q);
    var n := path.node[level];
    if pool.IsInner(n) {
      InnerKids(view, it, INNER_SIZE);
      newCrit := pool.BalanceInners(n, critKey, rhs);
      InnersOutcome(view, pool.view, it, jt, newCrit);
    } else {
      LeafKids(view, it, job.leafCap);
      newCrit := pool.BalanceLeaves(n, rhs);
      LeavesOutcome(view, pool.view, it, jt, job.leafCap, newCrit);
    }
  }

  /** The vacated node and its parent. */
  lemma VacFacts(job: Job, view: View, L: seq<Level>, node: seq<Node>, entry: seq<nat>, pos: seq<nat>, k: nat, D: Level, q: nat)
    requires VacState(job, view, L, node, entry, pos, k, D, q)
    ensures UpperOk(view, L, job.leafCap, k)
    ensures node[k] == L[k][pos[k]].id && node[k] < |view| && !view[node[k]].Free? && node[k] in AllIds(L)
    ensures k > 0 ==>
      && node[k - 1] < |view| && node[k - 1] != node[k] && WellFormed(view[node[k - 1]], false)
      && entry[k - 1] < |view[node[k - 1]].tree| && pos[k - 1] < |L[k - 1]|
    ensures k == 0 ==> |L| == 2 && L[1] == [] && L[0] == [Sub(None, node[0])]
  {
    hide KidsOf, NodeOk, HalfFull, Replaced;
    assert OnNode(L, node, pos, k);
    InIds(L[k], pos[k]);
    if k > 0 {
      VisitedInner(view, L, job.leafCap, node, entry, pos, k + 1, k - 1);
      assert OnNode(L, node, pos, k - 1);
      InIds(L[k - 1], pos[k - 1]);
    }
  }

  /** The levels above a node do not notice that it was freed. */
  lemma FreedUpper(view: View, view1: View, L: seq<Level>, leafCap: nat, node: seq<Node>, entry: seq<nat>, pos: seq<nat>, k: nat, cur: Node)
    requires PathTo(view, L, node, entry, pos, k + 1) && UpperOk(view, L, leafCap, k) && Distinct(L) && k + 1 < |L|
    requires ChangedOnly(view, view1, {cur}) && |view1| == |view| && cur in Ids(L[k])
    ensures UpperOk(view1, L, leafCap, k) && PathTo(view1, L, node, entry, pos, k + 1)
  {
    hide Expand, KidsOf, Ids;
    DistinctElsewhere(L, k, cur);
    forall j | 0 <= j < k ensures NodeLevel(view1, L, leafCap, j) && AgreeOn(view, view1, L[j]) {
      assert NodeLevel(view, L, leafCap, j) && Ids(L[j]) !! {cur};
      LevelFrame(view, view1, L, leafCap, j, {cur});
    }
    UpperFrame(view, view1, L, L, node, entry, pos, node, entry, pos, k + 1);
  }

  /** The tree has lost its only node. */
  lemma RootGone(job: Job, view: View, view': View, L: seq<Level>, n: Node, next: Option<Node>)
    requires RemoveFacts(job, view, L) && |L| == 2 && L[0] == [Sub(None, n)] && n < |view|
    requires view' == view[n := Free(next)]
    ensures Replaced(job.view0, view', job.A, {})
  {
    assert L[0][0].id in Ids(L[0]);
    assert AllIds(L) - {n} == {};
    ReplacedShrink(job.view0, view, view', job.A, AllIds(L), n);
  }

  /** What healing promises: the tree is gone, or level `k` and all others are in order. */
  twostate predicate HealResult(job: Job, path: Path, pool: NodePool, L: seq<Level>, L': seq<Level>, k: nat, q: nat, emptied: bool)
    reads path, path.Repr(), pool, pool.Repr
  {
    && Ready(path, pool) && pool.Repr == old(pool.Repr)
    && (emptied ==> k == 0 && |L| == 2 && L[1] == [] && Replaced(job.view0, pool.view, job.A, {}))
    && (!emptied ==>
      && Healed(job, path, pool, L', k, q)
      && HealFrame(old(pool.view), pool.view, L, L', old(path.node[..]), old(path.entry[..]), path.node[..], path.entry[..], k))
  }

  /** The path has moved on to the first child of the next node. */
  lemma HealedStep(job: Job, view: View, L: seq<Level>, node: seq<Node>, entry: seq<nat>, pos: seq<nat>,
                   node': seq<Node>, entry': seq<nat>, pos': seq<nat>, k: nat, q: nat)
    requires HealState(job, view, L, node, entry, pos, k, q)
    requires entry[k] == |KidsOf(view, L[k][pos[k]])| > 0 && HalfFull(view, L[k][pos[k]], CapAt(k + 2 == |L|, job.leafCap))
    requires pos[k] + 1 < |L[k]| && PathTo(view, L, node', entry', pos', k + 1)
    requires pos'[k] == pos[k] + 1 && entry'[k] == 0 && node'[0] == node[0]
    ensures HealDone(job, view, L, node', entry', pos', |L| - 1, k, q)
  {
    hide Expand, KidsOf, Offset, HalfFull, NodeOk, RemoveFacts;
    HealedAsIs(job, view, L, node, entry, pos, k, q);
    HealFacts(job, view, L, node, entry, pos, k, q);
    AnyKids(view, L[k][pos[k] + 1], k + 2 == |L|, CapAt(k + 2 == |L|, job.leafCap));
    OffsetStep(view, L[k], pos[k]);
    KidAt(view, L[k], pos[k] + 1, 0);
  }

  lemma AnyKids(view: View, it: Item, leaf: bool, cap: nat)
    requires NodeOk(view, it, leaf, cap)
    ensures |KidsOf(view, it)| > 0
  {
  }

  lemma NothingBelow(view: View, L: seq<Level>, node: seq<Node>, entry: seq<nat>, node': seq<Node>, entry': seq<nat>, k: nat)
    requires |node| == |entry| == |node'| == |entry'| == MAX_PATH
    requires forall l :: k < l < MAX_PATH ==> node'[l] == node[l] && entry'[l] == entry[l]
    ensures HealFrame(view, view, L, L, node, entry, node', entry', k)
  {
    assert forall j :: k < j < |L| - 1 ==> RekeyFrame(view, view, L, j);
  }

  /** The last child was removed from a node that is still in good shape: go on to the next node, or off the end. */
  method StepRight(path: Path, level: nat, pool: NodePool, ghost L: seq<Level>, ghost q: nat, ghost job: Job)
    requires Healing(job, path, pool, L, level, q)
    requires path.entry[level] == KidCount(path, pool, L, level)
    requires 2 * KidCount(path, pool, L, level) >= CapAt(level + 2 == |L|, job.leafCap) > 0
    modifies path, path.node, path.entry, pool.Repr
    ensures HealResult(job, path, pool, L, L, level, q, false)
  {
    hide Expand, KidsOf, Offset, HealState, HealDone, HealFrame;
    ghost var view, node0, entry0, pos0 := pool.view, path.node[..], path.entry[..], path.pos;
    HealBasics(job, view, L, node0, entry0, pos0, level, q);
    HealFacts(job, view, L, node0, entry0, pos0, level, q);
    var r := path.NextNode(level, pool, L);
    if r.Some? {
      HealedStep(job, view, L, node0, entry0, pos0, path.node[..], path.entry[..], path.pos, level, q);
    } else {
      HealedAsIs(job, view, L, node0, entry0, pos0, level, q);
    }
    NothingBelow(view, L, node0, entry0, path.node[..], path.entry[..], level);
  }

  lemma HealBasics(job: Job, view: View, L: seq<Level>, node: seq<Node>, entry: seq<nat>, pos: seq<nat>, k: nat, q: nat)
    requires HealState(job, view, L, node, entry, pos, k, q)
    ensures k < |L| - 1 && PathTo(view, L, node, entry, pos, k + 1) && |L| <= MAX_PATH + 1
    ensures entry[k] <= |KidsOf(view, L[k][pos[k]])|
  {
  }

  /** Heal `level` according to what the removal of a child reported. */
  method HealLevel(path: Path, status: Removed, level: nat, pool: NodePool, ghost L: seq<Level>, ghost q: nat, ghost job: Job)
    returns (emptied: bool, ghost L': seq<Level>)
    requires Healing(job, path, pool, L, level, q)
    requires status == RemovedStatus(path.entry[level], KidCount(path, pool, L, level), CapAt(level + 2 == |L|, job.leafCap))
    modifies path, path.node, path.entry, pool.Repr
    ensures HealResult(job, path, pool, L, L', level, q, emptied)
    decreases level, 2
  {
    hide Expand, KidsOf, Offset, HealState, VacState, HealDone, HealFrame;
    ghost var view, node0, entry0, pos0 := pool.view, path.node[..], path.entry[..], path.pos;
    HealBasics(job, view, L, node0, entry0, pos0, level, q);
    HealFacts(job, view, L, node0, entry0, pos0, level, q);
    emptied, L' := false, L;
    match status {
      case Healthy =>
        HealedAsIs(job, view, L, node0, entry0, pos0, level, q);
        NothingBelow(view, L, node0, entry0, node0, entry0, level);
      case Rightmost =>
        StepRight(path, level, pool, L, q, job);
      case Underflow =>
        L' := UnderflowedNode(path, level, pool, L, q, job);
      case Empty =>
        EmptyVac(job, view, L, node0, entry0, pos0, level, q);
        emptied, L' := EmptyNode(path, level, pool, L, q, job);
    }
  }

  /** Balance the node, which has children but too few, with its right sibling; without one it may stay small. */
  method UnderflowedNode(path: Path, level: nat, pool: NodePool, ghost L: seq<Level>, ghost q: nat, ghost job: Job)
    returns (ghost L': seq<Level>)
    requires Healing(job, path, pool, L, level, q)
    requires 0 < KidCount(path, pool, L, level) && 2 * KidCount(path, pool, L, level) < CapAt(level + 2 == |L|, job.leafCap)
    modifies path, path.node, path.entry, pool.Repr
    ensures HealResult(job, path, pool, L, L', level, q, false)
    decreases level, 1
  {
    hide Expand, KidsOf, Offset, HealState, VacState, HealDone, HealFrame, RekeyPost, BalanceEdit, JoinedRight, SharedOut;
    ghost var view, node0, entry0, pos0 := pool.view, path.node[..], path.entry[..], path.pos;
    HealBasics(job, view, L, node0, entry0, pos0, level, q);
    HealFacts(job, view, L, node0, entry0, pos0, level, q);
    var sibling := path.RightSibling(level, pool, L);
    L' := L;
    if sibling.Some? {
      var critKey, rhs := sibling.value.0, sibling.value.1;
      var newCrit := BalanceWithRight(path, level, critKey, rhs, pool, L, q, job);
      L' := AfterBalance(path, level, rhs, newCrit, pool, view, L, q, job);
    } else {
      KidNumber(view, L[level][path.pos[level]], level + 2 == |L|, CapAt(level + 2 == |L|, job.leafCap));
      if path.entry[level] >= pool.Entries(path.node[level]) {
        path.size := 0;
      }
      HealedAsIs(job, view, L, node0, entry0, pos0, level, q);
      NothingBelow(view, L, node0, entry0, node0, entry0, level);
    }
  }

  lemma KidNumber(view: View, it: Item, leaf: bool, cap: nat)
    requires NodeOk(view, it, leaf, cap)
    ensures WellFormed(view[it.id], leaf) && |KidsOf(view, it)| == if leaf then |view[it.id].keys| else |view[it.id].tree|
  {
  }

  /** Record the new critical key of the right sibling, and remove the node if it gave everything away. */
  method AfterBalance(path: Path, level: nat, rhs: Node, newCrit: Option<Key>, pool: NodePool, ghost view: View,
                      ghost L: seq<Level>, ghost q: nat, ghost job: Job)
    returns (ghost L': seq<Level>)
    requires Ready(path, pool) && pool.leafCap == job.leafCap && path.size == |L| - 1
    requires HealState(job, view, L, path.node[..], path.entry[..], path.pos, level, q)
    requires BalanceEdit(view, pool.view, L, level, path.pos[level], rhs)
    requires |KidsOf(view, L[level][path.pos[level] + 1])| > 0
    requires newCrit.None? ==>
      var it, jt := L[level][path.pos[level]], L[level][path.pos[level] + 1];
      JoinedRight(view, pool.view, it, jt, level + 2 == |L|, CapAt(level + 2 == |L|, job.leafCap))
    requires newCrit.Some? ==>
      var it, jt := L[level][path.pos[level]], L[level][path.pos[level] + 1];
      SharedOut(view, pool.view, it, jt, level + 2 == |L|, CapAt(level + 2 == |L|, job.leafCap), newCrit.value)
    modifies path, path.node, path.entry, pool.Repr
    ensures Ready(path, pool) && pool.Repr == old(pool.Repr) && Healed(job, path, pool, L', level, q)
    ensures HealFrame(view, pool.view, L, L', old(path.node[..]), old(path.entry[..]), path.node[..], path.entry[..], level)
    decreases level, 1, 0
  {
    hide Expand, KidsOf, Offset, HealState, VacState, HealDone, HealFrame, RekeyPost, BalanceEdit, RemoveFacts, LevelsOkExcept, PathTo;
    ghost var view1, node0, entry0, pos0 := pool.view, path.node[..], path.entry[..], path.pos;
    HealFacts(job, view, L, node0, entry0, pos0, level, q);
    HealBasics(job, view, L, node0, entry0, pos0, level, q);
    BalanceFrames(job, view, view1, L, node0, entry0, pos0, level, q, rhs);
    BalanceBasics(view, view1, L, level, pos0[level], rhs);
    var newCk := newCrit;
    if newCrit.None? {
      newCk := path.CurrentCritKey(level, pool, L);
    }
    L' := L;
    if newCk.Some? {
      L' := UpdateRightCritKey(path, level, newCk.value, pool, L);
    }
    ghost var view2, L2 := pool.view, L';
    if newCrit.None? {
      JoinVac(job, view, view1, view2, L, L2, node0, entry0, pos0, level, q, rhs);
      var emptied;
      emptied, L' := EmptyNode(path, level, pool, L2, q, job);
      assert !emptied;
      FramesChain(view, view2, pool.view, L, L2, L', node0, entry0, path.node[..], path.entry[..], level);
    } else {
      ShareDone(job, view, view1, view2, L, L2, node0, entry0, pos0, level, q, rhs, newCrit.value);
    }
  }

  lemma BalanceBasics(view: View, view1: View, L: seq<Level>, k: nat, p: nat, rhs: Node)
    requires BalanceEdit(view, view1, L, k, p, rhs)
    ensures p + 1 < |L[k]| && L[k][p].Sub? && L[k][p + 1].Sub? && L[k][p + 1].id == rhs
  {
  }

  lemma FramesChain(view: View, view1: View, view2: View, L: seq<Level>, L1: seq<Level>, L2: seq<Level>,
                    node: seq<Node>, entry: seq<nat>, node': seq<Node>, entry': seq<nat>, k: nat)
    requires HealFrame(view, view1, L, L1, node, entry, node, entry, k)
    requires HealFrame(view1, view2, L1, L2, node, entry, node', entry', k)
    ensures HealFrame(view, view2, L, L2, node, entry, node', entry', k)
  {
    forall j | k < j < |L| - 1 ensures RekeyFrame(view, view2, L, j) {
      assert RekeyFrame(view, view1, L, j) && RekeyFrame(view1, view2, L1, j);
    }
  }

  /**
   * Free the vacated node below the root level and remove it from its parent; the node to the right of
   * it is looked up in between.
   */
  method Detach(path: Path, level: nat, pool: NodePool, ghost L: seq<Level>, ghost q: nat, ghost job: Job,
                ghost D: Level, ghost L1: seq<Level>)
    returns (sibling: Option<(Key, Node)>, status: Removed)
    requires level > 0 && Vacated(job, path, pool, L, level, q) && D == DropNode(L[level], path.pos[level]) && L1 == L[level := D]
    modifies pool.Repr
    ensures Ready(path, pool) && pool.Repr == old(pool.Repr)
    ensures Healing(job, path, pool, L1, level - 1, path.pos[level])
    ensures status == RemovedStatus(path.entry[level - 1], KidCount(path, pool, L1, level - 1), INNER_SIZE)
    ensures forall j :: level <= j < |L| - 1 ==> RekeyFrame(old(pool.view), pool.view, L1, j)
    ensures sibling.None? ==> path.pos[level] == |D|
    ensures sibling.Some? ==> path.pos[level] < |D| && D[path.pos[level]].Sub? && sibling.value.1 == D[path.pos[level]].id
  {
    hide Expand, KidsOf, Offset, VacState, HealState, LevelOk, PathTo, RemoveFacts, DropNode;
    ghost var view, node0, entry0, pos0 := pool.view, path.node[..], path.entry[..], path.pos;
    VacBasics(job, view, L, node0, entry0, pos0, level, D, q);
    VacFacts(job, view, L, node0, entry0, pos0, level, D, q);
    VacNext(job, view, L, node0, entry0, pos0, level, D, q);
    InIds(L[level], pos0[level]);
    pool.FreeNode(path.node[level]);
    FreedUpper(view, pool.view, L, job.leafCap, node0, entry0, pos0, level, node0[level]);
    sibling := path.RightSibling(level, pool, L);
    status := pool.InnerRemove(path.node[level - 1], path.entry[level - 1]);
    ParentLoses(job, view, pool.view, L, L1, node0, entry0, pos0, level, level - 1, D, q, old(pool.freelist));
    ParentSize(view, L1, node0, entry0, pos0, level - 1, pool.view);
  }

  /** Remove the current node at `level`, which holds nothing any more, and go on to the node right of it. */
  method EmptyNode(path: Path, level: nat, pool: NodePool, ghost L: seq<Level>, ghost q: nat, ghost job: Job)
    returns (emptied: bool, ghost L': seq<Level>)
    requires Vacated(job, path, pool, L, level, q)
    modifies path, path.node, path.entry, pool.Repr
    ensures HealResult(job, path, pool, L, L', level, q, emptied)
    decreases level, 0
  {
    hide Expand, KidsOf, Offset, VacState, HealState, HealDone, HealFrame, LevelOk, PathTo, RemoveFacts, DropNode;
    ghost var view, node0, entry0, pos0 := pool.view, path.node[..], path.entry[..], path.pos;
    ghost var D := DropNode(L[level], pos0[level]);
    VacBasics(job, view, L, node0, entry0, pos0, level, D, q);
    if level == 0 {
      VacFacts(job, view, L, node0, entry0, pos0, level, D, q);
      pool.FreeNode(path.node[level]);
      RootGone(job, view, pool.view, L, node0[0], old(pool.freelist));
      return true, L;
    }
    ghost var L1 := L[level := D];
    var sibling, status := Detach(path, level, pool, L, q, job, D, L1);
    ghost var view1 := pool.view;
    emptied, L' := HealLevel(path, status, level - 1, pool, L1, pos0[level], job);
    ghost var node1, entry1, pos1, size1 := path.node[..], path.entry[..], path.pos, path.size;
    if sibling.Some? {
      path.node[level] := sibling.value.1;
      path.pos := path.pos[level := pos0[level]];
    } else {
      path.size := 0;
      OffEnd(job, view1, pool.view, L1, L', node0, entry0, node1, entry1, pos1, size1, level, level - 1, pos0[level]);
    }
    VacDone(job, view, view1, pool.view, L, L1, L', node0, entry0, pos0, node1, entry1, pos1, path.node[..],
            path.pos, size1, level, level - 1, D, q);
  }

  /** The health report of the parent refers to the number of children it has left. */
  lemma ParentSize(view: View, L: seq<Level>, node: seq<Node>, entry: seq<nat>, pos: seq<nat>, l: nat, view1: View)
    requires l < |L| && l < |node| && l < |pos| && pos[l] < |L[l]| && node[l] < |view| && WellFormed(view[node[l]], false)
    requires |KidsOf(view1, L[l][pos[l]])| + 1 == |view[node[l]].tree|
    ensures EntriesAt(view1, L, pos, l) == |view[node[l]].keys|
  {
  }

  /** What stands at the position of the vacated node once it is gone. */
  lemma VacNext(job: Job, view: View, L: seq<Level>, node: seq<Node>, entry: seq<nat>, pos: seq<nat>, k: nat, D: Level, q: nat)
    requires VacState(job, view, L, node, entry, pos, k, D, q)
    ensures pos[k] + 1 < |L[k]| ==> pos[k] < |D| && D[pos[k]] == Sub(L[k][pos[k]].ck, L[k][pos[k] + 1].id)
    ensures pos[k] + 1 == |L[k]| ==> |D| == pos[k]
  {
  }

  lemma OffEnd(job: Job, view1: View, view': View, L1: seq<Level>, L': seq<Level>, node: seq<Node>, entry: seq<nat>,
               node1: seq<Node>, entry1: seq<nat>, pos1: seq<nat>, size: nat, k: nat, l: nat, p: nat)
    requires HealDone(job, view', L', node1, entry1, pos1, size, l, p) && HealFrame(view1, view', L1, L', node, entry, node1, entry1, l)
    requires k == l + 1 && k < |L1| && p == |L1[k]|
    ensures size == 0
  {
  }

  lemma VacBasics(job: Job, view: View, L: seq<Level>, node: seq<Node>, entry: seq<nat>, pos: seq<nat>, k: nat, D: Level, q: nat)
    requires VacState(job, view, L, node, entry, pos, k, D, q)
    ensures k < |L| - 1 && PathTo(view, L, node, entry, pos, k + 1) && |L| <= MAX_PATH + 1 && k < MAX_PATH
    ensures RemoveFacts(job, view, L) && Distinct(L) && L[k][pos[k]].Sub?
  {
  }
}
