/** Removal of the entry under the cursor: the edit of the leaf, healing, and discarding roots with a single child. */
module BForestRemoveEntry {
  import opened Prelude
  import opened BForestLevels
  import opened BForestNode
  import opened BForestPool
  import opened BForestKids
  import opened BForestBlocks
  import opened BForestPathTheory
  import opened BForestPath
  import opened BForestFrame
  import opened BForestRekey
  import opened BForestRemoveTheory
  import opened BForestRemove

  // ---------------------------------------------------------------- the leaf loses an entry

  /** A leaf level whose node `p` lost its entry `e` and may have an outdated critical key. */
  ghost predicate LeafLevelLost(view: View, s: Level, cap: nat, p: nat, e: nat) {
    && p < |s|
    && (forall i :: 0 <= i < |s| && i != p ==> NodeOk(view, s[i], true, cap))
    && (forall i :: 0 <= i < |s| - 1 && i != p ==> HalfFull(view, s[i], cap))
    && s[p].Sub? && s[p].id < |view| && WellFormed(view[s[p].id], true)
    && e <= |view[s[p].id].keys| < cap
    && (p < |s| - 1 ==> 2 * (|KidsOf(view, s[p])| + 1) >= cap)
    && (s[p].ck.Some? && e > 0 ==> s[p].ck.value == view[s[p].id].keys[0])
  }

  /** The state between the removal from the leaf and the update of its critical key. */
  ghost predicate LostState(job: Job, view: View, L: seq<Level>, node: seq<Node>, entry: seq<nat>, pos: seq<nat>, k: nat, q: nat) {
    && RemoveFacts(job, view, L) && k + 2 == |L| && (|L| > 2 ==> |L[1]| >= 2)
    && PathTo(view, L, node, entry, pos, k + 1)
    && LevelsOkExcept(view, L, job.leafCap, k) && Linked(view, L, k)
    && LeafLevelLost(view, L[k], job.leafCap, pos[k], entry[k])
    && q == Offset(view, L[k], pos[k]) + entry[k]
  }

  lemma LeafLoses(view: View, view1: View, it: Item, e: nat, cap: nat)
    requires NodeOk(view, it, true, cap) && e < |view[it.id].keys|
    requires |view1| == |view| && view1[it.id] == Leaf(RemoveAt(view[it.id].keys, e), RemoveAt(view[it.id].vals, e))
    ensures |KidsOf(view, it)| == |view[it.id].keys|
    ensures KidsOf(view1, it) == RemoveAt(KidsOf(view, it), e)
    ensures it.ck.Some? && e > 0 ==> it.ck.value == view1[it.id].keys[0]
  {
    KidsLeafRemove(view[it.id].keys, view[it.id].vals, it.ck, e);
  }

  lemma RemoveInBlock<T>(a: seq<T>, b: seq<T>, c: seq<T>, e: nat)
    requires e < |b|
    ensures RemoveAt(a + b + c, |a| + e) == a + RemoveAt(b, e) + c
  {
  }

  lemma LeafLevelLoses(view: View, view1: View, s: Level, cap: nat, p: nat, e: nat)
    requires LevelOk(view, s, true, cap) && p < |s| && NoDup(s) && NodeOk(view, s[p], true, cap) && e < |view[s[p].id].keys|
    requires view1 == view[s[p].id := Leaf(RemoveAt(view[s[p].id].keys, e), RemoveAt(view[s[p].id].vals, e))]
    ensures LeafLevelLost(view1, s, cap, p, e)
    ensures Offset(view, s, p) + e < |Expand(view, s)| && Expand(view1, s) == RemoveAt(Expand(view, s), Offset(view, s, p) + e)
    ensures Offset(view1, s, p) == Offset(view, s, p)
  {
    hide Expand, KidsOf;
    LeafLoses(view, view1, s[p], e, cap);
    LeafKids(view, s[p], cap);
    forall i | 0 <= i < |s| && i != p
      ensures NodeOk(view1, s[i], true, cap) && KidsOf(view1, s[i]) == KidsOf(view, s[i]) && (i < |s| - 1 ==> HalfFull(view1, s[i], cap))
    {
      assert NodeOk(view, s[i], true, cap) && (i < |s| - 1 ==> HalfFull(view, s[i], cap));
      IdsUnique(s, i, p);
      UntouchedSame(view, view1, s[i], true, cap);
    }
    assert p < |s| - 1 ==> HalfFull(view, s[p], cap);
    ExpandSplit(view, s, p);
    ExpandUpdate(view, view1, s, p);
    RemoveInBlock(Expand(view, s[..p]), KidsOf(view, s[p]), Expand(view, s[p + 1..]), e);
  }

  /** From a well-formed tree with the cursor on an entry. */
  lemma StartRemove(job: Job, view1: View, L: seq<Level>, L1: seq<Level>, node: seq<Node>, entry: seq<nat>, pos: seq<nat>, k: nat)
    requires TreeOk(job.view0, L, job.leafCap, job.root) && job.A == AllIds(L) && k + 2 == |L| <= MAX_PATH + 1
    requires PathTo(job.view0, L, node, entry, pos, k + 1) && pos[k] < |L[k]| && NodeOk(job.view0, L[k][pos[k]], true, job.leafCap)
    requires entry[k] < |job.view0[L[k][pos[k]].id].keys|
    requires var d := job.view0[L[k][pos[k]].id]; view1 == job.view0[L[k][pos[k]].id := Leaf(RemoveAt(d.keys, entry[k]), RemoveAt(d.vals, entry[k]))]
    requires job.q == Offset(job.view0, L[k], pos[k]) + entry[k] < |L[k + 1]| && L1 == L[k + 1 := RemoveAt(L[k + 1], job.q)]
    ensures LostState(job, view1, L1, node, entry, pos, k, job.q)
  {
    hide Expand, KidsOf, LeafLevelLost, NoDup;
    var view, s, x := job.view0, L[k], L[k][pos[k]].id;
    assert NodeLevel(view, L, job.leafCap, k);
    LeafLevelLoses(view, view1, s, job.leafCap, pos[k], entry[k]);
    InIds(s, pos[k]);
    DistinctElsewhere(L, k, x);
    forall j | 0 <= j < |L| - 1 ensures LevelSound(view, L, job.leafCap, j) {
      assert NodeLevel(view, L, job.leafCap, j);
    }
    IdsLive(view, L, job.leafCap);
    forall j | 0 <= j < k ensures NodeLevel(view1, L1, job.leafCap, j) && AgreeOn(view, view1, L[j]) {
      assert NodeLevel(view, L, job.leafCap, j) && L1[j] == L[j] && L1[j + 1] == L[j + 1];
      LevelFrame(view, view1, L, job.leafCap, j, {x});
    }
    UpperFrame(view, view1, L, L1, node, entry, pos, node, entry, pos, k + 1);
    assert AllIds(L1) == AllIds(L);
    SortedRemoveAt(L[k + 1], job.q);
    ReplacedNothing(view, AllIds(L));
    ReplacedEdit(view, view, view1, AllIds(L), AllIds(L1), {x});
  }

  /** The critical key of the leaf is up to date, or does not matter. */
  lemma LostHeal(job: Job, view: View, L: seq<Level>, node: seq<Node>, entry: seq<nat>, pos: seq<nat>, k: nat, q: nat)
    requires LostState(job, view, L, node, entry, pos, k, q)
    requires entry[k] > 0 || L[k][pos[k]].ck == None || |KidsOf(view, L[k][pos[k]])| == 0
    ensures HealState(job, view, L, node, entry, pos, k, q)
  {
    hide Expand, RemoveFacts, Linked;
  }

  /** The critical key of the leaf was brought up to date. */
  lemma LostRekeyed(job: Job, view1: View, view2: View, L1: seq<Level>, L2: seq<Level>, node: seq<Node>,
                    entry: seq<nat>, pos: seq<nat>, k: nat, q: nat, key: Key)
    requires LostState(job, view1, L1, node, entry, pos, k, q)
    requires RekeyPost(view1, view2, L1, L2, job.leafCap, k, pos[k], key, node, entry, pos)
    requires entry[k] == 0 && |view1[L1[k][pos[k]].id].keys| > 0 && key == view1[L1[k][pos[k]].id].keys[0]
    ensures HealState(job, view2, L2, node, entry, pos, k, q)
  {
    hide Expand, KidsOf, NodeOk, HalfFull, RemoveFacts;
    RekeyKeeps(job, view1, view2, L1, L2, node, entry, pos, k, pos[k], key);
    LeafRekeyed(view1, view2, L1[k], L2[k], job.leafCap, pos[k], key);
  }

  lemma LeafRekeyed(view1: View, view2: View, s: Level, s2: Level, cap: nat, p: nat, key: Key)
    requires LeafLevelLost(view1, s, cap, p, 0) && s2 == Rekeyed(s, p, key)
    requires forall j :: 0 <= j < |s| && s[j].Sub? && s[j].id < |view1| ==> Untouched(view1, view2, s, j)
    requires |view1[s[p].id].keys| > 0 && key == view1[s[p].id].keys[0]
    ensures LevelWeak(view2, s2, true, cap, p)
    ensures Expand(view2, s2) == Expand(view1, s) && Offset(view2, s2, p) == Offset(view1, s, p)
  {
    hide Expand, KidsOf, HalfFull, NodeOk, Weak;
    assert Untouched(view1, view2, s, p);
    LeafRekeyedOne(view1, view2, s[p], cap, key);
    forall i | 0 <= i < |s| && i != p
      ensures KidsOf(view2, s2[i]) == KidsOf(view1, s[i]) && NodeOk(view2, s2[i], true, cap)
      ensures (i < |s| - 1 ==> HalfFull(view2, s2[i], cap))
    {
      NextSub(view1, s, i, true, cap);
      SoundId(view1, s[i], true, cap);
      assert Untouched(view1, view2, s, i) && s2[i] == s[i];
      UntouchedSame(view1, view2, s[i], true, cap);
    }
    ExpandSame(view1, view2, s, s2);
    ExpandSame(view1, view2, s[..p], s2[..p]);
  }

  lemma SoundId(view: View, it: Item, leaf: bool, cap: nat)
    requires NodeOk(view, it, leaf, cap)
    ensures it.Sub? && it.id < |view|
  {
  }

  lemma LeafRekeyedOne(view1: View, view2: View, it: Item, cap: nat, key: Key)
    requires it.Sub? && it.id < |view1| && it.id < |view2| && view2[it.id] == view1[it.id]
    requires WellFormed(view1[it.id], true) && 0 < |view1[it.id].keys| < cap && key == view1[it.id].keys[0]
    ensures KidsOf(view2, Sub(Some(key), it.id)) == KidsOf(view1, it)
    ensures Weak(view2, Sub(Some(key), it.id), true, cap)
  {
  }

  // ---------------------------------------------------------------- roots with a single child

  /** A tree in order, except that its root may have a single child; it took the place of `job.A`. */
  ghost predicate TrunkState(job: Job, view: View, M: seq<Level>, root: Node) {
    && 2 <= |M| <= MAX_PATH + 1 && RootOk(M, root) && Distinct(M) && Sorted(M[|M| - 1])
    && LevelsOkExcept(view, M, job.leafCap, -1)
    && Replaced(job.view0, view, job.A, AllIds(M)) && AllIds(M) <= job.A <= Live(job.view0)
  }

  /** The only child of the root takes its place. */
  lemma TrunkDrop(job: Job, view: View, view1: View, M: seq<Level>, M1: seq<Level>, root: Node, child: Node, next: Option<Node>)
    requires TrunkState(job, view, M, root) && |M| > 2 && M[1] == [Sub(None, child)] && M1 == M[1..]
    requires root < |view| && view1 == view[root := Free(next)]
    ensures TrunkState(job, view1, M1, child)
    ensures forall j :: 0 < j < |M| - 1 ==> RekeyFrame(view, view1, M, j)
  {
    hide Expand, KidsOf, Ids, NoDup, Sorted, LevelSound;
    assert Ids(M[0]) == {root} by { IdsSingle(M[0], root); }
    AllIdsTail(M, M1, root);
    assert root in AllIds(M);
    ReplacedShrink(job.view0, view, view1, job.A, AllIds(M), root);
    forall j | 0 <= j < |M1| - 1 ensures NodeLevel(view1, M1, job.leafCap, j) {
      LevelShift(view, view1, M, M1, job.leafCap, j, j + 1, root);
    }
    forall j | 0 < j < |M| - 1 ensures RekeyFrame(view, view1, M, j) {
      AgreeOutside(view, view1, M[j], {root});
    }
  }

  lemma IdsSingle(s: Level, n: Node)
    requires s == [Sub(None, n)]
    ensures Ids(s) == {n}
  {
    assert s[0].id in Ids(s);
  }

  lemma AllIdsTail(M: seq<Level>, M1: seq<Level>, root: Node)
    requires |M| > 2 && M1 == M[1..] && Ids(M[0]) == {root} && Distinct(M)
    ensures Distinct(M1) && AllIds(M1) == AllIds(M) - {root}
  {
    hide Ids, NoDup;
    forall n ensures n in AllIds(M1) <==> n in AllIds(M) - {root} {
      if n in AllIds(M1) {
        var k :| 0 <= k < |M1| - 1 && n in Ids(M1[k]);
        assert n in Ids(M[k + 1]);
      }
      if n in AllIds(M) - {root} {
        var k :| 0 <= k < |M| - 1 && n in Ids(M[k]);
        assert n in Ids(M1[k - 1]);
      }
    }
  }

  lemma LevelShift(view: View, view1: View, M: seq<Level>, M1: seq<Level>, leafCap: nat, j: nat, j1: nat, root: Node)
    requires |M| > 2 && M1 == M[1..] && j < |M1| - 1 && j1 == j + 1 && Ids(M[0]) == {root} && Distinct(M)
    requires LevelsOkExcept(view, M, leafCap, -1) && |view1| == |view| && ChangedOnly(view, view1, {root})
    ensures NodeLevel(view1, M1, leafCap, j)
  {
    hide Expand, KidsOf, Ids;
    assert NodeLevel(view, M, leafCap, j1) && Ids(M[j1]) !! Ids(M[0]);
    LevelFrame(view, view1, M, leafCap, j1, {root});
    assert M1[j] == M[j1] && M1[j + 1] == M[j1 + 1];
  }

  /** The root is a leaf or has several children. */
  lemma TrunkDone(job: Job, view: View, M: seq<Level>, root: Node)
    requires TrunkState(job, view, M, root) && (|M| > 2 ==> |M[1]| >= 2)
    ensures TreeOk(view, M, job.leafCap, root)
  {
  }

  /** Level `l` consists of the single node `node[l]`. */
  ghost predicate Lone(L: seq<Level>, node: seq<Node>, l: nat) {
    l < |L| && l < |node| && L[l] == [Sub(None, node[l])]
  }

  /** The children of a node that is alone on its level. */
  lemma LoneNode(view: View, L: seq<Level>, leafCap: nat, l: nat, n: Node)
    requires l + 1 < |L| && NodeLevel(view, L, leafCap, l) && L[l] == [Sub(None, n)]
    ensures n < |view| && WellFormed(view[n], l + 2 == |L|) && |view[n].keys| <= if l + 2 == |L| then leafCap else 7
    ensures l + 2 < |L| ==> |L[l + 1]| == |view[n].tree|
    ensures l + 2 < |L| && |view[n].tree| == 1 ==> L[l + 1] == [Sub(None, view[n].tree[0])]
  {
    hide Expand, KidsOf, HalfFull;
    assert NodeOk(view, L[l][0], l + 2 == |L|, CapAt(l + 2 == |L|, leafCap));
    ExpandOne(view, L[l][0]);
    if l + 2 < |L| { InnerKids(view, L[l][0], INNER_SIZE); } else { LeafKids(view, L[l][0], leafCap); }
  }

  /** Count the roots with a single child, and note the nodes below them in the path. */
  method FindTrunk(path: Path, pool: NodePool, ghost L: seq<Level>, ghost root: Node) returns (ns: nat)
    requires Ready(path, pool) && 2 <= |L| <= MAX_PATH + 1 && L[0] == [Sub(None, root)] && path.node[0] == root
    requires LevelsOkExcept(pool.view, L, pool.leafCap, -1)
    requires path.size > 0 ==> path.At(pool.view, L, |L| - 1)
    modifies path.node
    ensures ns < |L| - 1 && (forall l :: 0 <= l <= ns ==> Lone(L, path.node[..], l))
    ensures ns + 2 < |L| ==> |L[ns + 1]| >= 2
    ensures path.size > 0 ==> path.node[..] == old(path.node[..])
  {
    hide Expand, KidsOf, Offset, LevelSound, Linked;
    ns := 0;
    assert NodeLevel(pool.view, L, pool.leafCap, 0);
    LoneNode(pool.view, L, pool.leafCap, 0, root);
    while pool.IsInner(path.node[ns]) && pool.Entries(path.node[ns]) == 1
      invariant ns < |L| - 1 && path.node[ns] < |pool.view| && WellFormed(pool.view[path.node[ns]], ns + 2 == |L|)
      invariant forall l :: 0 <= l <= ns ==> Lone(L, path.node[..], l)
      invariant path.size > 0 ==> path.node[..] == old(path.node[..])
      invariant ns + 2 < |L| ==> |L[ns + 1]| == |pool.view[path.node[ns]].tree|
      invariant ns + 2 < |L| && |pool.view[path.node[ns]].tree| == 1 ==> L[ns + 1] == [Sub(None, pool.view[path.node[ns]].tree[0])]
      decreases |L| - ns
    {
      ghost var node0 := path.node[..];
      var child := pool.Child(path.node[ns], 0);
      ns := ns + 1;
      path.node[ns] := child;
      assert path.size > 0 ==> OnNode(L, node0, path.pos, ns);
      assert path.size > 0 ==> path.node[..] == node0;
      forall l | 0 <= l <= ns ensures Lone(L, path.node[..], l) {
        assert l < ns ==> Lone(L, node0, l);
      }
      assert NodeLevel(pool.view, L, pool.leafCap, ns);
      LoneNode(pool.view, L, pool.leafCap, ns, child);
    }
  }

  /** Free the first `ns` nodes of the path, each the only one on its level. */
  method FreeTrunk(path: Path, ns: nat, pool: NodePool, ghost L: seq<Level>, ghost job: Job)
    requires Ready(path, pool) && pool.leafCap == job.leafCap && ns < |L| - 1 <= MAX_PATH
    requires forall l :: 0 <= l <= ns ==> Lone(L, path.node[..], l)
    requires TrunkState(job, pool.view, L, path.node[0])
    modifies pool
    ensures Ready(path, pool) && pool.Repr == old(pool.Repr)
    ensures TrunkState(job, pool.view, L[ns..], path.node[ns])
    ensures forall j :: ns <= j < |L| - 1 ==> RekeyFrame(old(pool.view), pool.view, L, j)
  {
    hide Expand, KidsOf, TrunkState, FreeListOk;
    ghost var view0 := pool.view;
    assert L[0..] == L;
    forall j | 0 <= j < |L| - 1 ensures RekeyFrame(view0, pool.view, L, j) {
    }
    for l := 0 to ns
      invariant Ready(path, pool) && pool.Repr == old(pool.Repr)
      invariant TrunkState(job, pool.view, L[l..], path.node[l])
      invariant forall j :: l <= j < |L| - 1 ==> RekeyFrame(view0, pool.view, L, j)
    {
      ghost var view := pool.view;
      assert Lone(L, path.node[..], l) && Lone(L, path.node[..], l + 1);
      TrunkLive(job, view, L[l..], path.node[l]);
      ghost var next := pool.freelist;
      pool.FreeNode(path.node[l]);
      TrunkFreed(job, view0, view, pool.view, L, l, path.node[l], path.node[l + 1], next);
    }
  }

  lemma TrunkLive(job: Job, view: View, M: seq<Level>, root: Node)
    requires TrunkState(job, view, M, root)
    ensures root < |view| && !view[root].Free?
  {
    assert NodeLevel(view, M, job.leafCap, 0);
    LoneNode(view, M, job.leafCap, 0, root);
  }

  lemma TrunkFreed(job: Job, view0: View, view: View, view1: View, L: seq<Level>, l: nat, n: Node, child: Node, next: Option<Node>)
    requires l + 2 < |L| && TrunkState(job, view, L[l..], n) && L[l + 1] == [Sub(None, child)]
    requires n < |view| && view1 == view[n := Free(next)]
    requires forall j :: l <= j < |L| - 1 ==> RekeyFrame(view0, view, L, j)
    ensures TrunkState(job, view1, L[l + 1..], child)
    ensures forall j :: l + 1 <= j < |L| - 1 ==> RekeyFrame(view0, view1, L, j)
  {
    hide KidsOf, TrunkState;
    var M := L[l..];
    TrunkDrop(job, view, view1, M, M[1..], n, child, next);
    assert M[1..] == L[l + 1..];
    forall j | l + 1 <= j < |L| - 1 ensures RekeyFrame(view0, view1, L, j) {
      assert RekeyFrame(view, view1, M, j - l) && RekeyFrame(view0, view, L, j);
    }
  }

  /** The buffers of a path without their first `ns` levels. */
  ghost predicate ShiftedBuffers(node: seq<Node>, entry: seq<nat>, pos: seq<nat>, node1: seq<Node>,
                                 entry1: seq<nat>, pos1: seq<nat>, ns: nat) {
    && Buffers(node, entry, pos) && Buffers(node1, entry1, pos1) && ns < MAX_PATH
    && (forall l :: 0 <= l < MAX_PATH - ns ==> node1[l] == node[l + ns] && entry1[l] == entry[l + ns])
    && (forall l :: 0 <= l <= MAX_PATH - ns ==> pos1[l] == pos[l + ns])
  }

  lemma ShiftPath(view: View, view1: View, L: seq<Level>, L1: seq<Level>, node: seq<Node>, entry: seq<nat>, pos: seq<nat>,
                  node1: seq<Node>, entry1: seq<nat>, pos1: seq<nat>, ns: nat)
    requires |L| >= 2 && PathTo(view, L, node, entry, pos, |L| - 1) && ns < |L| - 1 && L1 == L[ns..] && Lone(L, node, ns)
    requires ShiftedBuffers(node, entry, pos, node1, entry1, pos1, ns)
    requires forall j :: ns <= j < |L| - 1 ==> RekeyFrame(view, view1, L, j)
    ensures PathTo(view1, L1, node1, entry1, pos1, |L1| - 1)
    ensures pos[|L| - 2] < |L[|L| - 2]| ==> Offset(view1, L[|L| - 2], pos[|L| - 2]) == Offset(view, L[|L| - 2], pos[|L| - 2])
  {
    hide Expand, KidsOf;
    assert OnNode(L, node, pos, ns);
    forall l | 0 <= l < |L1| - 1 ensures OnNode(L1, node1, pos1, l) {
      assert OnNode(L, node, pos, l + ns);
    }
    forall l | 0 <= l < |L1| - 2 ensures Link(view1, L1, entry1, pos1, l) {
      assert Link(view, L, entry, pos, l + ns) && RekeyFrame(view, view1, L, l + ns);
      KeptOffset(view, view1, L[l + ns], pos[l + ns]);
    }
    if pos[|L| - 2] < |L[|L| - 2]| {
      assert RekeyFrame(view, view1, L, |L| - 2);
      KeptOffset(view, view1, L[|L| - 2], pos[|L| - 2]);
    }
  }

  /** ... and points at the same entry. */
  lemma ShiftEntry(view: View, view1: View, L: seq<Level>, L1: seq<Level>, node: seq<Node>, entry: seq<nat>, pos: seq<nat>,
                   node1: seq<Node>, entry1: seq<nat>, pos1: seq<nat>, pos2: seq<nat>, ns: nat, k: nat, m: nat, q: nat)
    requires k + 2 == |L| && PathTo(view, L, node, entry, pos, k + 1) && ns <= k && L1 == L[ns..] && Lone(L, node, ns) && m + ns == k
    requires ShiftedBuffers(node, entry, pos, node1, entry1, pos1, ns)
    requires forall j :: ns <= j < |L| - 1 ==> RekeyFrame(view, view1, L, j)
    requires pos[k] < |L[k]| && entry[k] < EntriesAt(view, L, pos, k) && q == Offset(view, L[k], pos[k]) + entry[k]
    requires pos2 == pos1[m + 1 := q]
    ensures PathTo(view1, L1, node1, entry1, pos2, m + 1)
    ensures pos2[m] < |L1[m]| && entry1[m] < EntriesAt(view1, L1, pos2, m)
    ensures pos2[m + 1] == q == Offset(view1, L1[m], pos2[m]) + entry1[m]
  {
    hide Expand, KidsOf, Offset, Lone;
    ShiftPath(view, view1, L, L1, node, entry, pos, node1, entry1, pos1, ns);
    PathFrame(view1, L1, node1, entry1, pos1, node1, entry1, pos2, m + 1);
    assert L1[m] == L[k] && RekeyFrame(view, view1, L, k);
  }

  /** Drop the first `ns` levels of the path. */
  method ShiftBuffers(path: Path, ns: nat)
    requires path.Valid() && ns < MAX_PATH && (path.size > 0 ==> ns < path.size)
    modifies path, path.node, path.entry
    ensures path.Valid() && path.size == if old(path.size) > 0 then old(path.size) - ns else 0
    ensures ShiftedBuffers(old(path.node[..]), old(path.entry[..]), old(path.pos), path.node[..], path.entry[..], path.pos, ns)
  {
    SliceShift(path.node, 0, MAX_PATH, ns);
    SliceShift(path.entry, 0, MAX_PATH, ns);
    if path.size > 0 {
      path.size := path.size - ns;
    }
    path.pos := path.pos[ns..] + seq(ns, _ => 0);
  }

  /** The result of a removal: the tree `L` at `root`, with the cursor on entry `q` or off the end. */
  ghost predicate Settled(job: Job, path: Path, pool: NodePool, L: seq<Level>, root: Node, q: nat)
    reads path, path.Repr(), pool, pool.Repr
  {
    && Ready(path, pool) && pool.leafCap == job.leafCap && 2 <= |L| <= MAX_PATH + 1
    && TreeOk(pool.view, L, job.leafCap, root) && path.node[0] == root
    && Replaced(job.view0, pool.view, job.A, AllIds(L))
    && q <= |L[|L| - 1]|
    && (if q < |L[|L| - 1]| then path.OnEntry(pool.view, L) && path.pos[path.size] == q else path.size == 0)
  }

  lemma DoneTrunk(job: Job, view: View, L: seq<Level>, node: seq<Node>, entry: seq<nat>, pos: seq<nat>, size: nat, k: nat, q: nat)
    requires HealDone(job, view, L, node, entry, pos, size, k, q) && k + 2 == |L|
    ensures TrunkState(job, view, L, job.root) && node[0] == job.root
    ensures q <= |L[k + 1]|
    ensures if q < |L[k + 1]| then
      && size == |L| - 1 && PathTo(view, L, node, entry, pos, k + 1) && pos[k] < |L[k]|
      && entry[k] < EntriesAt(view, L, pos, k) && q == Offset(view, L[k], pos[k]) + entry[k]
      else size == 0
  {
  }

  /** Shift the path when the first `ns` levels of the tree are gone. */
  method Settle(path: Path, ns: nat, pool: NodePool, ghost view: View, ghost L: seq<Level>, ghost L': seq<Level>,
                ghost k: nat, ghost q: nat, ghost job: Job)
    returns (root': Node)
    requires Ready(path, pool) && pool.leafCap == job.leafCap && k + 2 == |L| <= MAX_PATH + 1 && ns <= k && L' == L[ns..]
    requires Lone(L, path.node[..], ns) && TreeOk(pool.view, L', job.leafCap, path.node[ns])
    requires Replaced(job.view0, pool.view, job.A, AllIds(L'))
    requires q <= |L[k + 1]|
    requires if q < |L[k + 1]| then
      && path.size == |L| - 1 && path.At(view, L, k + 1) && path.pos[k] < |L[k]|
      && path.entry[k] < EntriesAt(view, L, path.pos, k) && q == Offset(view, L[k], path.pos[k]) + path.entry[k]
      else path.size == 0
    requires forall j :: ns <= j < |L| - 1 ==> RekeyFrame(view, pool.view, L, j)
    modifies path, path.node, path.entry
    ensures Settled(job, path, pool, L', root', q) && |L'| <= |L| && L'[|L'| - 1] == L[|L| - 1]
  {
    hide Expand, KidsOf, Offset, TreeOk, Replaced, PathTo;
    ghost var node0, entry0, pos0 := path.node[..], path.entry[..], path.pos;
    if ns > 0 {
      ShiftBuffers(path, ns);
    } else {
      assert ShiftedBuffers(node0, entry0, pos0, path.node[..], path.entry[..], path.pos, ns);
    }
    if path.size > 0 {
      ghost var pos1 := path.pos;
      path.pos := path.pos[path.size := q];
      ShiftEntry(view, pool.view, L, L', node0, entry0, pos0, path.node[..], path.entry[..], pos1, path.pos, ns, k, path.size - 1, q);
    }
    root' := path.node[0];
  }

  /** Discard roots with a single child; the tree is in order then. */
  method Collapse(path: Path, pool: NodePool, ghost L: seq<Level>, ghost q: nat, ghost job: Job) returns (root': Node, ghost L': seq<Level>)
    requires |L| >= 2 && Healed(job, path, pool, L, |L| - 2, q)
    modifies path, path.node, path.entry, pool.Repr
    ensures Ready(path, pool) && Settled(job, path, pool, L', root', q) && pool.Repr == old(pool.Repr)
    ensures |L'| <= |L| && L'[|L'| - 1] == L[|L| - 1]
  {
    hide Expand, KidsOf, Offset, TrunkState, HealDone, TreeOk, Replaced, PathTo, LevelsOkExcept;
    ghost var view, k: nat := pool.view, |L| - 2;
    DoneTrunk(job, view, L, path.node[..], path.entry[..], path.pos, path.size, k, q);
    TrunkBasics(job, view, L, job.root);
    var ns := FindTrunk(path, pool, L, job.root);
    assert Lone(L, path.node[..], 0) && Lone(L, path.node[..], ns);
    FreeTrunk(path, ns, pool, L, job);
    L' := L[ns..];
    TrunkDone(job, pool.view, L', path.node[ns]);
    TrunkBasics(job, pool.view, L', path.node[ns]);
    root' := Settle(path, ns, pool, view, L, L', k, q, job);
  }

  lemma TrunkBasics(job: Job, view: View, L: seq<Level>, root: Node)
    requires TrunkState(job, view, L, root)
    ensures 2 <= |L| <= MAX_PATH + 1 && RootOk(L, root) && LevelsOkExcept(view, L, job.leafCap, -1)
    ensures Replaced(job.view0, view, job.A, AllIds(L))
  {
  }

  // ---------------------------------------------------------------- the whole removal

  ghost predicate Losing(job: Job, path: Path, pool: NodePool, L: seq<Level>, q: nat)
    reads path, path.Repr(), pool, pool.Repr
  {
    && Ready(path, pool) && pool.leafCap == job.leafCap && 2 <= |L| <= MAX_PATH + 1 && path.size == |L| - 1
    && path.pos[path.size] == q
    && LostState(job, pool.view, L, path.node[..], path.entry[..], path.pos, |L| - 2, q)
  }

  lemma LostFacts(job: Job, view: View, L: seq<Level>, node: seq<Node>, entry: seq<nat>, pos: seq<nat>, k: nat, q: nat)
    requires LostState(job, view, L, node, entry, pos, k, q)
    ensures UpperOk(view, L, job.leafCap, k) && Distinct(L) && |L| <= MAX_PATH + 1 && PathTo(view, L, node, entry, pos, k + 1)
    ensures pos[k] < |L[k]| && L[k][pos[k]].Sub? && node[k] == L[k][pos[k]].id && node[k] < |view| && WellFormed(view[node[k]], true)
    ensures |KidsOf(view, L[k][pos[k]])| == |view[node[k]].keys| && entry[k] <= |view[node[k]].keys|
  {
    hide Expand;
    assert OnNode(L, node, pos, k);
  }

  /** Bring the critical key of the leaf up to date if its front entry was removed. */
  method RefreshCritKey(path: Path, pool: NodePool, ghost L: seq<Level>, ghost q: nat, ghost job: Job) returns (ghost L': seq<Level>)
    requires Losing(job, path, pool, L, q) && KidCount(path, pool, L, |L| - 2) > 0
    modifies pool.Repr
    ensures Healing(job, path, pool, L', |L| - 2, q) && pool.Repr == old(pool.Repr) && path.pos[path.size] == q
    ensures |L'| == |L| && L'[|L'| - 1] == L[|L| - 1]
    ensures KidCount(path, pool, L', |L| - 2) == old(KidCount(path, pool, L, |L| - 2))
  {
    hide Expand, KidsOf, Offset, LostState, HealState, RekeyPost;
    ghost var view, k: nat := pool.view, |L| - 2;
    LostFacts(job, view, L, path.node[..], path.entry[..], path.pos, k, q);
    L' := L;
    if path.entry[path.size - 1] == 0 {
      L' := UpdateCritKey(path, pool, L);
      if L[k][path.pos[k]].ck.Some? {
        RekeyBasics(view, pool.view, L, L', job.leafCap, k, path.pos[k], view[path.node[k]].keys[0],
                    path.node[..], path.entry[..], path.pos);
        LostRekeyed(job, view, pool.view, L, L', path.node[..], path.entry[..], path.pos, k, q, view[path.node[k]].keys[0]);
        LostCount(job, view, pool.view, L, L', path.node[..], path.entry[..], path.pos, k, q, view[path.node[k]].keys[0]);
      } else {
        LostHeal(job, view, L, path.node[..], path.entry[..], path.pos, k, q);
      }
    } else {
      LostHeal(job, view, L, path.node[..], path.entry[..], path.pos, k, q);
    }
  }

  lemma RekeyBasics(view: View, view': View, L: seq<Level>, L': seq<Level>, leafCap: nat, k: nat, i: nat,
                    key: Key, node: seq<Node>, entry: seq<nat>, pos: seq<nat>)
    requires RekeyPost(view, view', L, L', leafCap, k, i, key, node, entry, pos)
    ensures |L'| == |L| && L'[|L'| - 1] == L[|L| - 1]
  {
  }

  lemma LostCount(job: Job, view1: View, view2: View, L1: seq<Level>, L2: seq<Level>, node: seq<Node>,
                  entry: seq<nat>, pos: seq<nat>, k: nat, q: nat, key: Key)
    requires LostState(job, view1, L1, node, entry, pos, k, q)
    requires RekeyPost(view1, view2, L1, L2, job.leafCap, k, pos[k], key, node, entry, pos)
    requires |view1[L1[k][pos[k]].id].keys| > 0 && key == view1[L1[k][pos[k]].id].keys[0]
    ensures EntriesAt(view2, L2, pos, k) == EntriesAt(view1, L1, pos, k)
  {
    hide Expand, KidsOf, NodeOk, HalfFull, RemoveFacts;
    RekeyKeeps(job, view1, view2, L1, L2, node, entry, pos, k, pos[k], key);
    assert Untouched(view1, view2, L1[k], pos[k]);
    LeafRekeyedOne(view1, view2, L1[k][pos[k]], job.leafCap, key);
  }

  /** The leaf is still in good shape after the removal: nothing else has to be done. */
  lemma HealthyDone(job: Job, path: Path, pool: NodePool, L: seq<Level>, q: nat)
    requires |L| >= 2 && Healing(job, path, pool, L, |L| - 2, q) && path.pos[path.size] == q
    requires path.entry[|L| - 2] < KidCount(path, pool, L, |L| - 2) && 2 * KidCount(path, pool, L, |L| - 2) >= job.leafCap
    ensures Settled(job, path, pool, L, path.node[0], q)
  {
    hide Expand, KidsOf, Offset, HealState, HealDone, TrunkState, TreeOk, PathTo, Replaced;
    var k := |L| - 2;
    HealBasics(job, pool.view, L, path.node[..], path.entry[..], path.pos, k, q);
    HealedAsIs(job, pool.view, L, path.node[..], path.entry[..], path.pos, k, q);
    DoneTrunk(job, pool.view, L, path.node[..], path.entry[..], path.pos, |L| - 1, k, q);
    TrunkBasics(job, pool.view, L, job.root);
    HealWide(job, pool.view, L, path.node[..], path.entry[..], path.pos, k, q);
    TrunkDone(job, pool.view, L, job.root);
  }

  lemma HealWide(job: Job, view: View, L: seq<Level>, node: seq<Node>, entry: seq<nat>, pos: seq<nat>, k: nat, q: nat)
    requires HealState(job, view, L, node, entry, pos, k, q) && k + 2 == |L|
    ensures |L| > 2 ==> |L[1]| >= 2
  {
  }

  /** A tree in order has an entry. */
  lemma StillThere(job: Job, view: View, L: seq<Level>, node: seq<Node>, entry: seq<nat>, pos: seq<nat>, size: nat, k: nat, q: nat)
    requires HealDone(job, view, L, node, entry, pos, size, k, q) && k + 2 == |L|
    ensures |L[k + 1]| > 0
  {
    LevelNonEmpty(view, L, job.leafCap, k + 1);
  }

  lemma LeafHasEntry(view: View, L: seq<Level>, leafCap: nat, k: nat)
    requires k + 1 < |L| && NodeLevel(view, L, leafCap, k) && |L[k]| > 0
    ensures |L[k + 1]| > 0
  {
    hide KidsOf, Expand;
    AnyKids(view, L[k][0], k + 2 == |L|, CapAt(k + 2 == |L|, leafCap));
    KidAt(view, L[k], 0, 0);
  }

  lemma {:induction false} LevelNonEmpty(view: View, L: seq<Level>, leafCap: nat, k: nat)
    requires k < |L| && |L[0]| > 0 && LevelsOkExcept(view, L, leafCap, -1)
    ensures |L[k]| > 0
  {
    hide KidsOf, Expand, LevelSound;
    if k > 0 {
      LevelNonEmpty(view, L, leafCap, k - 1);
      assert NodeLevel(view, L, leafCap, k - 1);
      LeafHasEntry(view, L, leafCap, k - 1);
    }
  }

  /** Balance the leaf, which is not in good shape any more, with its neighbours. */
  method BalanceNodes(path: Path, status: Removed, pool: NodePool, ghost L: seq<Level>, ghost q: nat, ghost job: Job)
    returns (root': Option<Node>, ghost L': seq<Level>)
    requires Losing(job, path, pool, L, q)
    requires status == RemovedStatus(path.entry[|L| - 2], KidCount(path, pool, L, |L| - 2), job.leafCap)
    modifies path, path.node, path.entry, pool.Repr
    ensures Ready(path, pool) && pool.Repr == old(pool.Repr)
    ensures root'.None? <==> |L[|L| - 1]| == 0
    ensures root'.None? ==> path.size == 0 && Replaced(job.view0, pool.view, job.A, {})
    ensures root'.Some? ==> Settled(job, path, pool, L', root'.value, q) && L'[|L'| - 1] == L[|L| - 1]
  {
    hide Expand, KidsOf, Offset, LostState, HealState, HealDone, Settled, PathTo;
    ghost var k: nat := |L| - 2;
    LostFacts(job, pool.view, L, path.node[..], path.entry[..], path.pos, k, q);
    L' := L;
    if status != Empty {
      L' := RefreshCritKey(path, pool, L, q, job);
    } else {
      LostHeal(job, pool.view, L, path.node[..], path.entry[..], path.pos, k, q);
    }
    ghost var L2 := L';
    var leafLevel := path.size - 1;
    var emptied;
    emptied, L' := HealLevel(path, status, leafLevel, pool, L2, q, job);
    if emptied {
      assert L2[k + 1] == L[k + 1];
      path.size := 0;
      return None, L';
    }
    assert L'[k + 1] == L2[k + 1] == L[k + 1];
    StillThere(job, pool.view, L', path.node[..], path.entry[..], path.pos, path.size, k, q);
    var r;
    r, L' := Collapse(path, pool, L', q, job);
    root' := Some(r);
  }

  /**
   * Remove the entry under the cursor.  The tree loses exactly that entry and keeps its invariant;
   * the cursor is left on the entry after it, or off the end.  `None` when the tree is gone.
   */
  method Remove(path: Path, pool: NodePool, ghost L: seq<Level>, ghost root: Node) returns (root': Option<Node>, ghost L': seq<Level>)
    requires Ready(path, pool) && |L| <= MAX_PATH + 1
    requires TreeOk(pool.view, L, pool.leafCap, root) && path.OnEntry(pool.view, L) && path.node[0] == root
    modifies path, path.node, path.entry, pool.Repr
    ensures Ready(path, pool) && pool.Repr == old(pool.Repr)
    ensures root'.None? <==> |L[|L| - 1]| == 1
    ensures root'.None? ==> path.size == 0 && Replaced(old(pool.view), pool.view, AllIds(L), {})
    ensures root'.Some? ==>
      && 2 <= |L'| <= MAX_PATH + 1 && TreeOk(pool.view, L', pool.leafCap, root'.value) && path.node[0] == root'.value
      && Replaced(old(pool.view), pool.view, AllIds(L), AllIds(L'))
    ensures old(path.pos[path.size]) < |L[|L| - 1]|
    ensures root'.Some? ==> L'[|L'| - 1] == RemoveAt(L[|L| - 1], old(path.pos[path.size]))
    ensures root'.Some? ==>
      if old(path.pos[path.size]) < |L'[|L'| - 1]| then path.OnEntry(pool.view, L') && path.pos[path.size] == old(path.pos[path.size])
      else path.size == 0
  {
    hide Expand, KidsOf, Offset, TreeOk, LostState, HealState, PathTo, Replaced;
    ghost var view, k: nat, q := pool.view, |L| - 2, path.pos[path.size];
    path.AtLeaf(view, L, pool.leafCap, root);
    ghost var job := Job(view, AllIds(L), q, pool.leafCap, root);
    ghost var L1 := L[k + 1 := RemoveAt(L[k + 1], q)];
    var e := path.entry[path.size - 1];
    var status := pool.LeafRemove(path.node[path.size - 1], e);
    StartRemove(job, pool.view, L, L1, path.node[..], path.entry[..], path.pos, k);
    LostFacts(job, pool.view, L1, path.node[..], path.entry[..], path.pos, k, q);
    if status == Healthy {
      L' := RefreshCritKey(path, pool, L1, q, job);
      HealthyDone(job, path, pool, L', q);
      root' := Some(path.node[0]);
    } else {
      root', L' := BalanceNodes(path, status, pool, L1, q, job);
    }
  }
}
