/** State of a removal while too small nodes are healed from a leaf towards the root. */
module BForestRemoveTheory {
  import opened Prelude
  import opened BForestLevels
  import opened BForestBlocks
  import opened BForestPathTheory
  import opened BForestFrame
  import opened BForestRekey
  import opened BForestKids
  import opened BForestPool

  /** A node that may have become too small, or empty. */
  ghost predicate Weak(view: View, it: Item, leaf: bool, cap: nat) {
    && it.Sub? && it.id < |view| && !view[it.id].Free?
    && (|KidsOf(view, it)| > 0 ==> NodeOk(view, it, leaf, cap))
  }

  /** A sound level, except that node `p` may have lost one entry too many. */
  ghost predicate LevelWeak(view: View, s: Level, leaf: bool, cap: nat, p: nat) {
    && p < |s|
    && (forall i :: 0 <= i < |s| && i != p ==> NodeOk(view, s[i], leaf, cap))
    && (forall i :: 0 <= i < |s| - 1 && i != p ==> HalfFull(view, s[i], cap))
    && Weak(view, s[p], leaf, cap)
    && (p < |s| - 1 ==> 2 * (|KidsOf(view, s[p])| + 1) >= cap)
  }

  ghost predicate RemoveFacts(job: Job, view: View, L: seq<Level>) {
    && 2 <= |L| <= MAX_PATH + 1 && RootOk(L, job.root)
    && Distinct(L) && Sorted(L[|L| - 1])
    && Replaced(job.view0, view, job.A, AllIds(L)) && AllIds(L) <= job.A <= Live(job.view0)
  }

  /**
   * The node that the path visits on level `k` lost a child, and all other nodes are in order.
   * `q` is the position on the next level that the path is to point at afterwards.
   */
  ghost predicate HealState(job: Job, view: View, L: seq<Level>, node: seq<Node>, entry: seq<nat>, pos: seq<nat>, k: nat, q: nat) {
    && RemoveFacts(job, view, L) && k < |L| - 1 && (|L| > 2 ==> |L[1]| >= if k > 0 then 2 else 1)
    && PathTo(view, L, node, entry, pos, k + 1)
    && LevelsOkExcept(view, L, job.leafCap, k) && Linked(view, L, k)
    && LevelWeak(view, L[k], k + 2 == |L|, CapAt(k + 2 == |L|, job.leafCap), pos[k])
    && entry[k] <= |KidsOf(view, L[k][pos[k]])|
    && q == Offset(view, L[k], pos[k]) + entry[k]
  }

  /** All nodes are in order, and the path down to level `k` points at position `q`, or off the end. */
  ghost predicate HealDone(job: Job, view: View, L: seq<Level>, node: seq<Node>, entry: seq<nat>, pos: seq<nat>,
                           size: nat, k: nat, q: nat) {
    && RemoveFacts(job, view, L) && k < |L| - 1
    && LevelsOkExcept(view, L, job.leafCap, -1)
    && Buffers(node, entry, pos) && node[0] == job.root
    && q <= |L[k + 1]|
    && (if q < |L[k + 1]| then
          && size == |L| - 1 && PathTo(view, L, node, entry, pos, k + 1)
          && pos[k] < |L[k]| && entry[k] < |KidsOf(view, L[k][pos[k]])|
          && q == Offset(view, L[k], pos[k]) + entry[k]
        else size == 0)
  }

  /** What healing level `k` leaves alone: the levels below, and the path below. */
  ghost predicate HealFrame(view: View, view': View, L: seq<Level>, L': seq<Level>, node: seq<Node>, entry: seq<nat>,
                            node': seq<Node>, entry': seq<nat>, k: nat) {
    && |L'| == |L| && (forall j :: k < j < |L| ==> L'[j] == L[j])
    && |node| == |entry| == |node'| == |entry'| == MAX_PATH
    && (forall l :: k < l < MAX_PATH ==> node'[l] == node[l] && entry'[l] == entry[l])
    && (forall j :: k < j < |L| - 1 ==> RekeyFrame(view, view', L, j))
  }

  /** A weak node that is still half full, or is the last one, is in order. */
  lemma WeakEnough(view: View, s: Level, leaf: bool, cap: nat, p: nat)
    requires LevelWeak(view, s, leaf, cap, p) && |KidsOf(view, s[p])| > 0
    requires p == |s| - 1 || HalfFull(view, s[p], cap)
    ensures LevelOk(view, s, leaf, cap)
  {
    hide HalfFull, NodeOk, KidsOf;
  }

  lemma AllLevels(view: View, L: seq<Level>, leafCap: nat, k: nat)
    requires k + 1 < |L| && LevelsOkExcept(view, L, leafCap, k)
    requires Linked(view, L, k) && LevelSound(view, L, leafCap, k)
    ensures LevelsOkExcept(view, L, leafCap, -1)
  {
    forall j | 0 <= j < |L| - 1 && j != -1 ensures NodeLevel(view, L, leafCap, j) {
    }
  }

  /** The node needs no healing. */
  lemma HealedAsIs(job: Job, view: View, L: seq<Level>, node: seq<Node>, entry: seq<nat>, pos: seq<nat>, k: nat, q: nat)
    requires HealState(job, view, L, node, entry, pos, k, q)
    requires |KidsOf(view, L[k][pos[k]])| > 0
    requires pos[k] == |L[k]| - 1 || HalfFull(view, L[k][pos[k]], CapAt(k + 2 == |L|, job.leafCap))
    ensures LevelsOkExcept(view, L, job.leafCap, -1) && q <= |L[k + 1]| && node[0] == job.root
    ensures entry[k] < |KidsOf(view, L[k][pos[k]])| ==> q < |L[k + 1]| && HealDone(job, view, L, node, entry, pos, |L| - 1, k, q)
    ensures entry[k] == |KidsOf(view, L[k][pos[k]])| && pos[k] == |L[k]| - 1 ==> q == |L[k + 1]| && HealDone(job, view, L, node, entry, pos, 0, k, q)
  {
    hide Expand, KidsOf, NodeOk, HalfFull, Replaced;
    WeakEnough(view, L[k], k + 2 == |L|, CapAt(k + 2 == |L|, job.leafCap), pos[k]);
    AllLevels(view, L, job.leafCap, k);
    OffsetStep(view, L[k], pos[k]);
    assert OnNode(L, node, pos, 0);
  }

  // ---------------------------------------------------------------- removing a node from a level

  /** Level `s` without node `p`; the node after it takes over its critical key. */
  ghost function DropNode(s: Level, p: nat): Level
    requires p < |s|
  {
    if p + 1 < |s| && s[p].Sub? && s[p + 1].Sub? then s[..p] + [Sub(s[p].ck, s[p + 1].id)] + s[p + 2..]
    else s[..p]
  }

  /** Node `p` of level `k` holds nothing that counts any more: `D` is the level without it. */
  ghost predicate VacState(job: Job, view: View, L: seq<Level>, node: seq<Node>, entry: seq<nat>, pos: seq<nat>, k: nat, D: Level, q: nat) {
    && RemoveFacts(job, view, L) && k < |L| - 1 && (|L| > 2 ==> |L[1]| >= if k > 0 then 2 else 1)
    && PathTo(view, L, node, entry, pos, k + 1)
    && LevelsOkExcept(view, L, job.leafCap, k)
    && pos[k] < |L[k]| && D == DropNode(L[k], pos[k])
    && L[k][pos[k]].Sub? && L[k][pos[k]].id < |view| && !view[L[k][pos[k]].id].Free?
    && LevelOk(view, D, k + 2 == |L|, CapAt(k + 2 == |L|, job.leafCap)) && L[k + 1] == Expand(view, D)
    && (if pos[k] + 1 < |L[k]| then
          && L[k][pos[k] + 1].Sub?
          && (L[k][pos[k]].ck.Some? ==> L[k][pos[k] + 1].ck == L[k][pos[k]].ck)
          && entry[k] < |KidsOf(view, D[pos[k]])| && q == Offset(view, D, pos[k]) + entry[k]
        else q == |L[k + 1]|)
  }

  /** One block of children in the middle of a level is replaced by another. */
  lemma DropBlock(s: Level, a: Level, c: Level, ck: Option<Key>, tree: seq<Node>, kids: Level, kids': Level, e: nat)
    requires s == a + kids + c && e < |kids| == |tree|
    requires forall i :: 0 <= i < |kids| ==> kids[i].Sub? && kids[i].id == tree[i]
    requires kids[0].ck == ck
    requires |a| + e + 1 < |s| ==> s[|a| + e + 1].Sub?
    requires e > 0 || |kids| == 1 ==> kids' == RemoveAt(kids, e)
    requires e == 0 && |kids| > 1 ==> kids' == [Sub(ck, tree[1])] + kids[2..]
    requires |kids| == 1 ==> c == []
    requires e > 0 && |a| + e + 1 < |s| ==> s[|a| + e + 1].ck == s[|a| + e].ck
    ensures DropNode(s, |a| + e) == a + kids' + c
  {
    var D, t := DropNode(s, |a| + e), a + kids' + c;
    assert |D| == |t|;
    forall i | 0 <= i < |D| ensures D[i] == t[i] {
    }
  }

  lemma IdsDrop(s: Level, p: nat)
    requires p < |s| && s[p].Sub? && (p + 1 < |s| ==> s[p + 1].Sub?) && NoDup(s)
    ensures NoDup(DropNode(s, p)) && Ids(DropNode(s, p)) == Ids(s) - {s[p].id}
  {
    var D := DropNode(s, p);
    forall i | 0 <= i < |D| ensures D[i].Sub? == s[if i < p then i else i + 1].Sub? && (D[i].Sub? ==> D[i].id == s[if i < p then i else i + 1].id) {
    }
    forall i, j | 0 <= i < j < |D| && D[i].Sub? && D[j].Sub? ensures D[i].id != D[j].id {
      IdsUnique(s, if i < p then i else i + 1, if j < p then j else j + 1);
    }
    forall n ensures n in Ids(D) <==> n in Ids(s) - {s[p].id} {
      if n in Ids(s) && n != s[p].id {
        var i :| 0 <= i < |s| && s[i].Sub? && s[i].id == n;
        assert i != p && D[if i < p then i else i - 1].Sub?;
        InIds(D, if i < p then i else i - 1);
      }
      if n in Ids(D) {
        var i :| 0 <= i < |D| && D[i].Sub? && D[i].id == n;
        IdsUnique(s, if i < p then i else i + 1, p);
        InIds(s, if i < p then i else i + 1);
      }
    }
  }

  lemma DistinctDrop(L: seq<Level>, k: nat, p: nat)
    requires k + 1 < |L| && p < |L[k]| && L[k][p].Sub? && (p + 1 < |L[k]| ==> L[k][p + 1].Sub?) && Distinct(L)
    ensures Distinct(L[k := DropNode(L[k], p)])
    ensures AllIds(L[k := DropNode(L[k], p)]) == AllIds(L) - {L[k][p].id}
  {
    hide Ids, NoDup, DropNode;
    var n, L' := L[k][p].id, L[k := DropNode(L[k], p)];
    IdsDrop(L[k], p);
    assert n in Ids(L[k]) by { InIds(L[k], p); }
    DistinctElsewhere(L, k, n);
    assert forall j :: 0 <= j < |L| - 1 ==> Ids(L'[j]) == Ids(L[j]) - {n};
    forall m ensures m in AllIds(L') <==> m in AllIds(L) - {n} {
      if m in AllIds(L) - {n} {
        var j :| 0 <= j < |L| - 1 && m in Ids(L[j]);
        assert m in Ids(L'[j]);
      }
      if m in AllIds(L') {
        var j :| 0 <= j < |L'| - 1 && m in Ids(L'[j]);
        assert m in Ids(L[j]);
      }
    }
  }

  lemma InIds(s: Level, p: nat)
    requires p < |s| && s[p].Sub?
    ensures s[p].id in Ids(s)
  {
  }

  /** The children of the parent after the removal. */
  ghost predicate KidsWithout(kids: Level, kids': Level, ck: Option<Key>, e: nat)
    requires e < |kids|
  {
    && (e > 0 || |kids| == 1 ==> kids' == RemoveAt(kids, e))
    && (e == 0 && |kids| > 1 ==> kids[1].Sub? && kids' == [Sub(ck, kids[1].id)] + kids[2..])
  }

  lemma ParentKids(view: View, view': View, it: Item, e: nat)
    requires NodeOk(view, it, false, INNER_SIZE) && e < |view[it.id].tree|
    requires |view'| == |view| && view'[it.id] == InnerWithout(view[it.id], e)
    ensures |KidsOf(view, it)| == |view[it.id].tree| && |KidsOf(view', it)| + 1 == |KidsOf(view, it)|
    ensures KidsWithout(KidsOf(view, it), KidsOf(view', it), it.ck, e)
    ensures forall i :: 0 <= i < |KidsOf(view, it)| ==>
      KidsOf(view, it)[i] == Sub(if i == 0 then it.ck else Some(view[it.id].keys[i - 1]), view[it.id].tree[i])
    ensures Weak(view', it, false, INNER_SIZE)
  {
    KidsInnerRemove(view[it.id], it.ck, e);
  }

  lemma AgreeOutside(view: View, view': View, s: Level, X: set<Node>)
    requires |view'| == |view| && ChangedOnly(view, view', X) && Ids(s) !! X
    ensures AgreeOn(view, view', s)
  {
    forall i | 0 <= i < |s| ensures KidsOf(view', s[i]) == KidsOf(view, s[i]) {
      if s[i].Sub? { assert s[i].id in Ids(s); }
    }
  }

  lemma LosesFacts(job: Job, view: View, view': View, L: seq<Level>, k: nat, p: nat, x: Node, freed: Option<Node>, d: NodeData)
    requires RemoveFacts(job, view, L) && 0 < k < |L| - 1 && p < |L[k]|
    requires L[k][p].Sub? && L[k][p].id < |view| && !view[L[k][p].id].Free? && (p + 1 < |L[k]| ==> L[k][p + 1].Sub?)
    requires x in AllIds(L) && x != L[k][p].id && x < |view| && !d.Free?
    requires view' == view[L[k][p].id := Free(freed)][x := d]
    ensures RemoveFacts(job, view', L[k := DropNode(L[k], p)])
  {
    hide Ids, NoDup, Sorted, DropNode;
    var cur, L' := L[k][p].id, L[k := DropNode(L[k], p)];
    DistinctDrop(L, k, p);
    InIds(L[k], p);
    assert cur in AllIds(L);
    var view1 := view[cur := Free(freed)];
    ReplacedShrink(job.view0, view, view1, job.A, AllIds(L), cur);
    ReplacedEdit(job.view0, view1, view', job.A, AllIds(L'), {x});
  }

  lemma LosesLink(view: View, view': View, P: Level, s: Level, D: Level, pp: nat, e: nat, p: nat)
    requires LevelOk(view, P, false, INNER_SIZE) && s == Expand(view, P) && pp < |P|
    requires e < |KidsOf(view, P[pp])| && p == Offset(view, P, pp) + e < |s|
    requires forall i :: 0 <= i < |P| && i != pp ==> KidsOf(view', P[i]) == KidsOf(view, P[i])
    requires NodeOk(view, P[pp], false, INNER_SIZE)
    requires KidsWithout(KidsOf(view, P[pp]), KidsOf(view', P[pp]), P[pp].ck, e)
    requires D == DropNode(s, p) && s[p].Sub?
    requires p + 1 < |s| ==> s[p + 1].Sub? && (s[p].ck.Some? ==> s[p + 1].ck == s[p].ck)
    ensures Expand(view', P) == D
  {
    hide Expand, KidsOf, DropNode;
    ExpandSplit(view, P, pp);
    PatchedUpdate(view, view', P, pp, KidsOf(view', P[pp]));
    var a, kids, kids', c := Expand(view, P[..pp]), KidsOf(view, P[pp]), KidsOf(view', P[pp]), Expand(view, P[pp + 1..]);
    InnerKids(view, P[pp], INNER_SIZE);
    var tree := view[P[pp].id].tree;
    assert s == a + kids + c && s[|a| + e] == kids[e];
    assert |kids| == 1 ==> c == [] by {
      assert pp < |P| - 1 ==> HalfFull(view, P[pp], INNER_SIZE);
      ExpandNone(view, P[pp + 1..]);
    }
    DropBlock(s, a, c, P[pp].ck, tree, kids, kids', e);
  }

  lemma ExpandNone(view: View, s: Level)
    ensures s == [] ==> Expand(view, s) == []
  {
  }

  ghost predicate Untouched(view: View, view': View, s: Level, i: nat)
    requires i < |s|
  {
    s[i].Sub? && s[i].id < |view| && s[i].id < |view'| && view'[s[i].id] == view[s[i].id]
  }

  lemma LosesWeak(view: View, view': View, s: Level, pp: nat)
    requires LevelOk(view, s, false, INNER_SIZE) && pp < |s|
    requires forall i :: 0 <= i < |s| && i != pp ==> KidsOf(view', s[i]) == KidsOf(view, s[i])
    requires forall i :: 0 <= i < |s| && i != pp ==> Untouched(view, view', s, i)
    requires Weak(view', s[pp], false, INNER_SIZE) && |KidsOf(view', s[pp])| + 1 == |KidsOf(view, s[pp])|
    ensures LevelWeak(view', s, false, INNER_SIZE, pp)
  {
    hide KidsOf;
    forall i | 0 <= i < |s| && i != pp ensures NodeOk(view', s[i], false, INNER_SIZE) && (i < |s| - 1 ==> HalfFull(view', s[i], INNER_SIZE)) {
      assert NodeOk(view, s[i], false, INNER_SIZE) && (i < |s| - 1 ==> HalfFull(view, s[i], INNER_SIZE)) && Untouched(view, view', s, i);
    }
    assert pp < |s| - 1 ==> HalfFull(view, s[pp], INNER_SIZE);
  }

  /** The nodes of the parent level other than the parent are untouched. */
  lemma SiblingsSame(view: View, view': View, s: Level, pp: nat, x: Node, cur: Node, cap: nat)
    requires LevelOk(view, s, false, cap) && pp < |s| && NoDup(s) && s[pp].Sub? && s[pp].id == x && cur !in Ids(s)
    requires |view'| == |view| && ChangedOnly(view, view', {x, cur})
    ensures forall i :: 0 <= i < |s| && i != pp ==> Untouched(view, view', s, i)
    ensures forall i :: 0 <= i < |s| && i != pp ==> KidsOf(view', s[i]) == KidsOf(view, s[i])
  {
    forall i | 0 <= i < |s| && i != pp ensures Untouched(view, view', s, i) && KidsOf(view', s[i]) == KidsOf(view, s[i]) {
      assert NodeOk(view, s[i], false, cap);
      IdsUnique(s, i, pp);
      InIds(s, i);
    }
  }

  lemma DropSize(s: Level, p: nat)
    requires p < |s| && s[p].Sub? && (p + 1 < |s| ==> s[p + 1].Sub?)
    ensures |DropNode(s, p)| == |s| - 1
  {
  }

  /** Removing the vacated node from its parent on level `l`: that level loses one child. */
  lemma ParentLoses(job: Job, view: View, view': View, L: seq<Level>, L': seq<Level>, node: seq<Node>, entry: seq<nat>, pos: seq<nat>,
                    k: nat, l: nat, D: Level, q: nat, freed: Option<Node>)
    requires VacState(job, view, L, node, entry, pos, k, D, q) && l + 1 == k && L' == L[k := D]
    requires node[l] < |view| && WellFormed(view[node[l]], false) && entry[l] < |view[node[l]].tree|
    requires node[k] < |view|
    requires view' == view[node[k] := Free(freed)][node[l] := InnerWithout(view[node[l]], entry[l])]
    ensures HealState(job, view', L', node, entry, pos, l, pos[k])
    ensures forall j :: k <= j < |L| - 1 ==> RekeyFrame(view, view', L', j)
    ensures |KidsOf(view', L[l][pos[l]])| + 1 == |view[node[l]].tree|
  {
    hide Expand, KidsOf, HalfFull, Replaced, DropNode, Ids, NoDup, LevelOk, InnerWithout, Weak;
    var s, P, pp, e := L[k], L[l], pos[l], entry[l];
    assert OnNode(L, node, pos, l) && OnNode(L, node, pos, k) && Link(view, L, entry, pos, l) && NodeLevel(view, L, job.leafCap, l);
    var x, cur := node[l], node[k];
    InIds(s, pos[k]);
    InIds(P, pp);
    DistinctElsewhere(L, k, cur);
    DistinctElsewhere(L, l, x);
    AnyOk(view, P, pp, false, INNER_SIZE);
    ParentKids(view, view', P[pp], e);
    SiblingsSame(view, view', P, pp, x, cur, INNER_SIZE);
    LosesFacts(job, view, view', L, k, pos[k], x, freed, InnerWithout(view[x], e));
    LosesLink(view, view', P, s, D, pp, e, pos[k]);
    LosesWeak(view, view', P, pp);
    IdsDrop(s, pos[k]);
    DropSize(s, pos[k]);
    LosesOthers(view, view', L, L', job.leafCap, k, l, D, x, cur);
    PathShorten(view, L, node, entry, pos, k + 1, k);
    assert forall j :: 0 <= j < l ==> RekeyFrame(view, view', L', j) && L'[j] == L[j];
    UpperFrame(view, view', L, L', node, entry, pos, node, entry, pos, k);
    SameOffset(view, view', P, pp);
  }

  lemma LosesOthers(view: View, view': View, L: seq<Level>, L': seq<Level>, leafCap: nat, k: nat, l: nat, D: Level, x: Node, cur: Node)
    requires l + 1 == k < |L| - 1 && L' == L[k := D] && LevelsOkExcept(view, L, leafCap, k)
    requires LevelOk(view, D, k + 2 == |L|, CapAt(k + 2 == |L|, leafCap)) && L[k + 1] == Expand(view, D)
    requires |view'| == |view| && ChangedOnly(view, view', {x, cur})
    requires forall j :: 0 <= j < |L| - 1 && j != l ==> x !in Ids(L[j])
    requires forall j :: 0 <= j < |L| - 1 && j != k ==> cur !in Ids(L[j])
    requires Ids(D) == Ids(L[k]) - {cur}
    ensures LevelsOkExcept(view', L', leafCap, l)
    ensures forall j :: 0 <= j < |L| - 1 && j != l ==> RekeyFrame(view, view', L', j)
  {
    hide Expand, KidsOf, Ids, LevelOk;
    forall j | 0 <= j < |L'| - 1 && j != l ensures Ids(L'[j]) !! {x, cur} && NodeLevel(view, L', leafCap, j) && RekeyFrame(view, view', L', j) {
      if j != k { assert L'[j] == L[j] && L'[j + 1] == L[j + 1] && NodeLevel(view, L, leafCap, j); }
      AgreeOutside(view, view', L'[j], {x, cur});
    }
    OtherLevels(view, view', L', leafCap, l, {x, cur});
  }

  lemma AnyOk(view: View, s: Level, p: nat, leaf: bool, cap: nat)
    requires LevelOk(view, s, leaf, cap) && p < |s|
    ensures NodeOk(view, s[p], leaf, cap)
  {
  }

  lemma SameOffset(view: View, view': View, s: Level, p: nat)
    requires p < |s| && forall i :: 0 <= i < |s| && i != p ==> KidsOf(view', s[i]) == KidsOf(view, s[i])
    ensures Offset(view', s, p) == Offset(view, s, p)
  {
    ExpandFrame(view, view', s[..p]);
  }

  // ---------------------------------------------------------------- balancing two neighbours

  lemma ExpandTwo(view: View, s: Level, p: nat)
    requires p + 1 < |s|
    ensures Expand(view, s) == Expand(view, s[..p]) + (KidsOf(view, s[p]) + KidsOf(view, s[p + 1])) + Expand(view, s[p + 2..])
    ensures Offset(view, s, p) == |Expand(view, s[..p])|
  {
    hide Expand, KidsOf;
    ExpandSplit(view, s, p);
    var t := s[p + 1..];
    ExpandSplit(view, t, 0);
    assert t[..0] == [] && t[1..] == s[p + 2..];
    ExpandNone(view, t[..0]);
    JoinBlocks(Expand(view, s[..p]), KidsOf(view, s[p]), KidsOf(view, s[p + 1]), Expand(view, s[p + 2..]));
    RegroupBlocks(Expand(view, s[..p]), KidsOf(view, s[p]), KidsOf(view, s[p + 1]), Expand(view, s[p + 2..]));
  }

  lemma RegroupBlocks<T>(a: seq<T>, b: seq<T>, b': seq<T>, c: seq<T>)
    ensures a + b + ([] + b' + c) == a + (b + b') + c
  {
  }

  /** Level `s` outside positions `p` and `p + 1`. */
  ghost predicate SameOutside(view: View, view': View, s: Level, s': Level, p: nat) {
    && |s'| == |s| && p + 1 < |s|
    && forall i :: 0 <= i < |s| && i != p && i != p + 1 ==> s'[i] == s[i] && Untouched(view, view', s, i)
  }

  /** The two neighbours share their children evenly. */
  lemma SharedLevel(view: View, view': View, s: Level, s': Level, leaf: bool, cap: nat, p: nat)
    requires LevelWeak(view, s, leaf, cap, p) && SameOutside(view, view', s, s', p)
    requires NodeOk(view', s'[p], leaf, cap) && HalfFull(view', s'[p], cap)
    requires NodeOk(view', s'[p + 1], leaf, cap) && HalfFull(view', s'[p + 1], cap)
    requires KidsOf(view', s'[p]) + KidsOf(view', s'[p + 1]) == KidsOf(view, s[p]) + KidsOf(view, s[p + 1])
    ensures LevelOk(view', s', leaf, cap)
    ensures Expand(view', s') == Expand(view, s) && Offset(view', s', p) == Offset(view, s, p)
  {
    hide Expand, KidsOf, NodeOk, HalfFull;
    forall i | 0 <= i < |s| && i != p && i != p + 1
      ensures NodeOk(view', s'[i], leaf, cap) && KidsOf(view', s'[i]) == KidsOf(view, s[i]) && (i < |s| - 1 ==> HalfFull(view', s'[i], cap))
    {
      assert Untouched(view, view', s, i);
      UntouchedSame(view, view', s[i], leaf, cap);
    }
    ExpandTwo(view, s, p);
    ExpandTwo(view', s', p);
    ExpandSame(view, view', s[..p], s'[..p]);
    ExpandSame(view, view', s[p + 2..], s'[p + 2..]);
  }

  lemma UntouchedSame(view: View, view': View, it: Item, leaf: bool, cap: nat)
    requires it.Sub? && it.id < |view| && it.id < |view'| && view'[it.id] == view[it.id]
    ensures KidsOf(view', it) == KidsOf(view, it)
    ensures NodeOk(view', it, leaf, cap) == NodeOk(view, it, leaf, cap)
    ensures HalfFull(view', it, cap) == HalfFull(view, it, cap)
  {
  }

  /** The right neighbour takes all children of node `p`, which then counts no more. */
  lemma JoinedLevel(view: View, view': View, s: Level, leaf: bool, cap: nat, p: nat, rhs: Node)
    requires LevelWeak(view, s, leaf, cap, p) && p + 1 < |s|
    requires forall i :: 0 <= i < |s| && i != p && i != p + 1 ==> Untouched(view, view', s, i)
    requires s[p + 1].id == rhs
    requires NodeOk(view', Sub(s[p].ck, rhs), leaf, cap)
    requires KidsOf(view', Sub(s[p].ck, rhs)) == KidsOf(view, s[p]) + KidsOf(view, s[p + 1])
    ensures var D := s[..p] + [Sub(s[p].ck, rhs)] + s[p + 2..];
      LevelOk(view', D, leaf, cap) && Expand(view', D) == Expand(view, s) && Offset(view', D, p) == Offset(view, s, p)
  {
    hide Expand, KidsOf, NodeOk;
    var D := s[..p] + [Sub(s[p].ck, rhs)] + s[p + 2..];
    forall i | 0 <= i < |s| && i != p && i != p + 1
      ensures NodeOk(view', s[i], leaf, cap) && KidsOf(view', s[i]) == KidsOf(view, s[i]) && (i < |s| - 1 ==> HalfFull(view', s[i], cap))
    {
      assert Untouched(view, view', s, i);
      UntouchedSame(view, view', s[i], leaf, cap);
    }
    forall i | 0 <= i < |D| ensures NodeOk(view', D[i], leaf, cap) && (i < |D| - 1 ==> HalfFull(view', D[i], cap)) {
      if i != p { assert D[i] == s[if i < p then i else i + 1]; }
      else if i < |D| - 1 { assert HalfFull(view, s[p + 1], cap); }
    }
    ExpandTwo(view, s, p);
    assert D[..p] == s[..p] && D[p + 1..] == s[p + 2..];
    ExpandSplit(view', D, p);
    ExpandFrame(view, view', s[..p]);
    ExpandFrame(view, view', s[p + 2..]);
  }

  /** The node `p` of level `k` and its right neighbour `rhs` have exchanged children. */
  ghost predicate BalanceEdit(view: View, view1: View, L: seq<Level>, k: nat, p: nat, rhs: Node) {
    && k + 1 < |L| && p + 1 < |L[k]| && L[k][p].Sub? && L[k][p + 1].Sub? && L[k][p + 1].id == rhs
    && |view1| == |view| && ChangedOnly(view, view1, {L[k][p].id, rhs})
    && L[k][p].id < |view| && rhs < |view| && !view1[L[k][p].id].Free? && !view1[rhs].Free?
  }

  lemma BalanceFrames(job: Job, view: View, view1: View, L: seq<Level>, node: seq<Node>, entry: seq<nat>,
                      pos: seq<nat>, k: nat, q: nat, rhs: Node)
    requires HealState(job, view, L, node, entry, pos, k, q) && BalanceEdit(view, view1, L, k, pos[k], rhs)
    ensures UpperOk(view1, L, job.leafCap, k) && LevelsOkExcept(view1, L, job.leafCap, k)
    ensures PathTo(view1, L, node, entry, pos, k + 1)
    ensures forall j :: k < j < |L| - 1 ==> RekeyFrame(view, view1, L, j)
    ensures forall i :: 0 <= i < |L[k]| && i != pos[k] && i != pos[k] + 1 ==> Untouched(view, view1, L[k], i)
    ensures RemoveFacts(job, view1, L)
  {
    hide Expand, KidsOf, Sorted;
    var s, p := L[k], pos[k];
    var X := {s[p].id, rhs};
    InIds(s, p);
    InIds(s, p + 1);
    DistinctElsewhere(L, k, s[p].id);
    DistinctElsewhere(L, k, rhs);
    OtherLevels(view, view1, L, job.leafCap, k, X);
    forall j | 0 <= j < |L| - 1 && j != k ensures RekeyFrame(view, view1, L, j) {
      AgreeOutside(view, view1, L[j], X);
    }
    forall j | 0 <= j < k ensures AgreeOn(view, view1, L[j]) {
      assert RekeyFrame(view, view1, L, j);
    }
    UpperFrame(view, view1, L, L, node, entry, pos, node, entry, pos, k + 1);
    forall i | 0 <= i < |s| && i != p && i != p + 1 ensures Untouched(view, view1, s, i) {
      assert NodeOk(view, s[i], k + 2 == |L|, CapAt(k + 2 == |L|, job.leafCap));
      IdsUnique(s, i, p);
      IdsUnique(s, i, p + 1);
    }
    assert X <= AllIds(L);
    ReplacedEdit(job.view0, view, view1, job.A, AllIds(L), X);
  }

  /** What a change of critical keys leaves in place on level `k`. */
  lemma RekeyKeeps(job: Job, view1: View, view2: View, L: seq<Level>, L2: seq<Level>, node: seq<Node>, entry: seq<nat>, pos: seq<nat>,
                   k: nat, i: nat, key: Key)
    requires RekeyPost(view1, view2, L, L2, job.leafCap, k, i, key, node, entry, pos)
    requires LevelsOkExcept(view1, L, job.leafCap, k) && RemoveFacts(job, view1, L)
    ensures RemoveFacts(job, view2, L2) && LevelsOkExcept(view2, L2, job.leafCap, k)
    ensures forall j :: 0 <= j < |L[k]| && L[k][j].Sub? && L[k][j].id < |view1| ==> Untouched(view1, view2, L[k], j)
  {
    hide Expand, KidsOf, Sorted, Rekeyed;
    var x :| RekeyEdit(view1, view2, L, k, x);
    ReplacedEdit(job.view0, view1, view2, job.A, AllIds(L), {x});
    forall j | 0 <= j < |L| - 1 && j != k ensures NodeLevel(view2, L2, job.leafCap, j) {
      if j > k {
        assert NodeLevel(view1, L, job.leafCap, j) && x !in Ids(L[j]);
        LevelFrame(view1, view2, L, job.leafCap, j, {x});
        assert L2[j] == L[j] && L2[j + 1] == L[j + 1];
      }
    }
    forall j | 0 <= j < |L[k]| && L[k][j].Sub? && L[k][j].id < |view1| ensures Untouched(view1, view2, L[k], j) {
      InIds(L[k], j);
    }
  }

  /** Sharing children with the right neighbour heals level `k`. */
  lemma ShareDone(job: Job, view: View, view1: View, view2: View, L: seq<Level>, L2: seq<Level>, node: seq<Node>,
                  entry: seq<nat>, pos: seq<nat>,
                  k: nat, q: nat, rhs: Node, key: Key)
    requires HealState(job, view, L, node, entry, pos, k, q) && BalanceEdit(view, view1, L, k, pos[k], rhs)
    requires RekeyPost(view1, view2, L, L2, job.leafCap, k, pos[k] + 1, key, node, entry, pos)
    requires var leaf, cap := k + 2 == |L|, CapAt(k + 2 == |L|, job.leafCap);
      && NodeOk(view1, L[k][pos[k]], leaf, cap) && HalfFull(view1, L[k][pos[k]], cap)
      && NodeOk(view1, Sub(Some(key), rhs), leaf, cap) && HalfFull(view1, Sub(Some(key), rhs), cap)
      && |KidsOf(view1, L[k][pos[k]])| > |KidsOf(view, L[k][pos[k]])|
      && KidsOf(view1, L[k][pos[k]]) + KidsOf(view1, Sub(Some(key), rhs)) == KidsOf(view, L[k][pos[k]]) + KidsOf(view, L[k][pos[k] + 1])
    ensures HealDone(job, view2, L2, node, entry, pos, |L| - 1, k, q)
    ensures HealFrame(view, view2, L, L2, node, entry, node, entry, k)
  {
    hide Expand, KidsOf, NodeOk, HalfFull, LevelOk;
    var leaf, cap := k + 2 == |L|, CapAt(k + 2 == |L|, job.leafCap);
    var s, s2, p := L[k], L2[k], pos[k];
    BalanceFrames(job, view, view1, L, node, entry, pos, k, q, rhs);
    RekeyKeeps(job, view1, view2, L, L2, node, entry, pos, k, p + 1, key);
    assert s2[p] == s[p] && s2[p + 1] == Sub(Some(key), rhs);
    assert Untouched(view1, view2, s, p) && Untouched(view1, view2, s, p + 1);
    UntouchedSame(view1, view2, s[p], leaf, cap);
    UntouchedSame(view1, view2, Sub(Some(key), rhs), leaf, cap);
    forall i | 0 <= i < |s| && i != p && i != p + 1 ensures s2[i] == s[i] && Untouched(view, view2, s, i) {
      assert Untouched(view, view1, s, i) && Untouched(view1, view2, s, i);
    }
    SharedLevel(view, view2, s, s2, leaf, cap, p);
    AllLevels(view2, L2, job.leafCap, k);
    KidAt(view2, s2, p, entry[k]);
    assert OnNode(L2, node, pos, 0) && OnNode(L2, node, pos, k);
    ComposeFrames(view, view1, view2, L, k);
  }

  lemma ComposeFrames(view: View, view1: View, view2: View, L: seq<Level>, k: nat)
    requires forall j :: k < j < |L| - 1 ==> RekeyFrame(view, view1, L, j)
    requires forall j :: k <= j < |L| - 1 ==> RekeyFrame(view1, view2, L, j)
    ensures forall j :: k < j < |L| - 1 ==> RekeyFrame(view, view2, L, j)
  {
    forall j | k < j < |L| - 1 ensures RekeyFrame(view, view2, L, j) {
      assert RekeyFrame(view, view1, L, j) && RekeyFrame(view1, view2, L, j);
    }
  }

  /** All children of the current node went to its right neighbour; what is left is to remove the node. */
  lemma JoinVac(job: Job, view: View, view1: View, view2: View, L: seq<Level>, L2: seq<Level>, node: seq<Node>,
                entry: seq<nat>, pos: seq<nat>,
                k: nat, q: nat, rhs: Node)
    requires HealState(job, view, L, node, entry, pos, k, q) && BalanceEdit(view, view1, L, k, pos[k], rhs)
    requires L[k][pos[k]].ck.Some? ==> RekeyPost(view1, view2, L, L2, job.leafCap, k, pos[k] + 1, L[k][pos[k]].ck.value, node, entry, pos)
    requires L[k][pos[k]].ck.None? ==> L2 == L && view2 == view1
    requires NodeOk(view1, Sub(L[k][pos[k]].ck, rhs), k + 2 == |L|, CapAt(k + 2 == |L|, job.leafCap))
    requires KidsOf(view1, Sub(L[k][pos[k]].ck, rhs)) == KidsOf(view, L[k][pos[k]]) + KidsOf(view, L[k][pos[k] + 1])
    requires |KidsOf(view, L[k][pos[k] + 1])| > 0
    ensures |L2| == |L| && pos[k] < |L2[k]|
    ensures VacState(job, view2, L2, node, entry, pos, k, DropNode(L2[k], pos[k]), q)
    ensures HealFrame(view, view2, L, L2, node, entry, node, entry, k)
  {
    hide Expand, KidsOf, NodeOk, HalfFull, LevelOk, LevelsOkExcept;
    var leaf, cap := k + 2 == |L|, CapAt(k + 2 == |L|, job.leafCap);
    var s, p := L[k], pos[k];
    var it := Sub(s[p].ck, rhs);
    BalanceFrames(job, view, view1, L, node, entry, pos, k, q, rhs);
    if s[p].ck.Some? {
      RekeyKeeps(job, view1, view2, L, L2, node, entry, pos, k, p + 1, s[p].ck.value);
      assert Untouched(view1, view2, s, p) && Untouched(view1, view2, s, p + 1);
      UntouchedSame(view1, view2, it, leaf, cap);
      ComposeFrames(view, view1, view2, L, k);
    }
    forall i | 0 <= i < |s| && i != p && i != p + 1 ensures Untouched(view, view2, s, i) {
      assert Untouched(view, view1, s, i) && (s[p].ck.Some? ==> Untouched(view1, view2, s, i));
    }
    JoinedLevel(view, view2, s, leaf, cap, p, rhs);
    assert DropNode(L2[k], p) == s[..p] + [it] + s[p + 2..];
  }

  /** A node without children is the last of its level and can be removed. */
  lemma EmptyVac(job: Job, view: View, L: seq<Level>, node: seq<Node>, entry: seq<nat>, pos: seq<nat>, k: nat, q: nat)
    requires HealState(job, view, L, node, entry, pos, k, q) && |KidsOf(view, L[k][pos[k]])| == 0
    requires job.leafCap >= 7
    ensures pos[k] + 1 == |L[k]| && VacState(job, view, L, node, entry, pos, k, DropNode(L[k], pos[k]), q)
  {
    hide Expand, KidsOf, NodeOk, HalfFull;
    var s, p := L[k], pos[k];
    assert DropNode(s, p) == s[..p];
    ExpandSplit(view, s, p);
    ExpandNone(view, s[p + 1..]);
  }

  /** With the parents healed, the path continues at the node that took the place of the removed one. */
  lemma VacDone(job: Job, view: View, view1: View, view': View, L: seq<Level>, L1: seq<Level>, L': seq<Level>,
                node: seq<Node>, entry: seq<nat>, pos: seq<nat>, node1: seq<Node>, entry1: seq<nat>, pos1: seq<nat>,
                node': seq<Node>, pos': seq<nat>, size: nat, k: nat, l: nat, D: Level, q: nat)
    requires VacState(job, view, L, node, entry, pos, k, D, q) && k == l + 1 && L1 == L[k := D]
    requires forall j :: k <= j < |L| - 1 ==> RekeyFrame(view, view1, L1, j)
    requires HealDone(job, view', L', node1, entry1, pos1, size, l, pos[k])
    requires HealFrame(view1, view', L1, L', node, entry, node1, entry1, l)
    requires Buffers(node', entry1, pos')
    requires if pos[k] < |D| then node' == node1[k := D[pos[k]].id] && pos' == pos1[k := pos[k]] else node' == node1 && pos' == pos1
    ensures HealDone(job, view', L', node', entry1, pos', size, k, q)
    ensures HealFrame(view, view', L, L', node, entry, node', entry1, k)
  {
    hide Expand, KidsOf, Offset, NodeOk, HalfFull, LevelOk, DropNode, RemoveFacts;
    var p := pos[k];
    assert L'[k] == D && L'[k + 1] == L[k + 1];
    forall j | k <= j < |L| - 1 ensures RekeyFrame(view, view', L1, j) {
      assert RekeyFrame(view, view1, L1, j) && RekeyFrame(view1, view', L1, j);
    }
    assert forall j :: k < j < |L| - 1 ==> RekeyFrame(view, view', L1, j) && L1[j] == L[j];
    assert |L1| == |L'| && LevelsOkExcept(view', L', job.leafCap, -1);
    DropSize(L[k], p);
    if p < |D| {
      assert NodeLevel(view', L', job.leafCap, l) && NodeLevel(view', L', job.leafCap, k);
      PathFrame(view', L', node1, entry1, pos1, node', entry1, pos', k);
      DropKeeps(L[k], p);
      Below2(view', L', l, p, entry1, pos1);
      assert pos'[l] == pos1[l] && pos'[k] == Offset(view', L'[l], pos1[l]) + entry1[l];
      PathExtend(view', L', node', entry1, pos', k);
      assert RekeyFrame(view, view', L1, k);
      KeptOffset(view, view', D, p);
      KidAt(view', D, p, entry[k]);
      OffsetStep(view', D, p);
    }
  }

  lemma DropKeeps(s: Level, p: nat)
    requires p < |s| && p < |DropNode(s, p)| && s[p].Sub?
    ensures p + 1 < |s| && DropNode(s, p)[p].Sub?
  {
  }

  lemma KeptOffset(view: View, view': View, s: Level, p: nat)
    requires p < |s| && AgreeOn(view, view', s)
    ensures Offset(view', s, p) == Offset(view, s, p) && KidsOf(view', s[p]) == KidsOf(view, s[p])
  {
    ExpandFrame(view, view', s[..p]);
  }

  lemma Below2(view: View, L: seq<Level>, l: nat, p: nat, entry: seq<nat>, pos: seq<nat>)
    requires l + 1 < |L| && l < |entry| && l < |pos| && pos[l] < |L[l]| && Linked(view, L, l)
    requires entry[l] < |KidsOf(view, L[l][pos[l]])| && p == Offset(view, L[l], pos[l]) + entry[l]
    ensures p < |L[l + 1]| && L[l + 1][p] == KidsOf(view, L[l][pos[l]])[entry[l]]
  {
    hide Expand, KidsOf;
    KidAt(view, L[l], pos[l], entry[l]);
  }
}
