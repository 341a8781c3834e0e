/** State of an insertion while node splits travel up from a leaf. */
module BForestInsertTheory {
  import opened Prelude
  import opened BForestLevels
  import opened BForestBlocks
  import opened BForestPathTheory
  import opened BForestFrame

  /** Below level `k` the path visits the right nodes, down to position `q` of the entries. */
  ghost predicate LowerPath(view: View, L: seq<Level>, node: seq<Node>, entry: seq<nat>, pos: seq<nat>, k: int) {
    && Buffers(node, entry, pos) && 2 <= |L| <= MAX_PATH + 1
    && forall l :: 0 <= l && k < l < |L| - 1 ==> OnNode(L, node, pos, l) && Link(view, L, entry, pos, l)
  }

  /** The upper part of the path visits nodes down to level `k - 1` and points at their children. */
  ghost predicate UpperPath(view: View, L: seq<Level>, node: seq<Node>, entry: seq<nat>, pos: seq<nat>, k: nat) {
    && PathTo(view, L, node, entry, pos, k)
    && pos[k - 1] < |L[k - 1]| && entry[k - 1] < |KidsOf(view, L[k - 1][pos[k - 1]])|
  }

  /** Index in level `k` of the node that was split, seen from the path above it. */
  ghost function SplitIndex(view: View, L: seq<Level>, entry: seq<nat>, pos: seq<nat>, k: nat): nat
    requires k < |L| && k < |entry| && k < |pos|
    requires k > 0 ==> pos[k - 1] < |L[k - 1]|
  {
    if k == 0 then 0 else Offset(view, L[k - 1], pos[k - 1]) + entry[k - 1]
  }

  /**
   * Level `k` has been split: `rhs`, with critical key `crit`, is the new node to the right, and
   * the level above does not know it yet.
   */
  ghost predicate SplitState(job: Job, view: View, L: seq<Level>, node: seq<Node>, entry: seq<nat>, pos: seq<nat>,
                             k: nat, crit: Key, rhs: Node) {
    && 2 <= |L| <= MAX_PATH + 1 && k < |L| - 1 && Buffers(node, entry, pos)
    && (k == 0 ==> LevelsOkExcept(view, L, job.leafCap, -1) && L[0] == [Sub(None, job.root), Sub(Some(crit), rhs)])
    && (k > 0 ==> RootOk(L, job.root) && UpperPath(view, L, node, entry, pos, k))
    && (k > 0 ==> Pending(view, L, job.leafCap, k - 1, pos[k - 1], InsertAt(KidsOf(view, L[k - 1][pos[k - 1]]), entry[k - 1] + 1, Sub(Some(crit), rhs))))
    && LowerPath(view, L, node, entry, pos, k - 1)
    && (pos[k] == SplitIndex(view, L, entry, pos, k) || pos[k] == SplitIndex(view, L, entry, pos, k) + 1)
    && (node[k] == rhs <==> pos[k] == SplitIndex(view, L, entry, pos, k) + 1)
    && InsertFacts(job, view, L, pos)
  }

  ghost predicate InsertFacts(job: Job, view: View, L: seq<Level>, pos: seq<nat>) {
    && |L| >= 2 && |L| <= |pos|
    && Distinct(L) && Sorted(L[|L| - 1]) && (|L| > 2 ==> |L[1]| >= 2)
    && pos[|L| - 1] == job.q
    && Replaced(job.view0, view, job.A, AllIds(L))
  }

  /** The lower path survives changes of nodes further up. */
  lemma LowerFrame(view: View, view': View, L: seq<Level>, L': seq<Level>, node: seq<Node>, entry: seq<nat>, pos: seq<nat>,
                   node': seq<Node>, entry': seq<nat>, pos': seq<nat>, k: int)
    requires LowerPath(view, L, node, entry, pos, k) && Buffers(node', entry', pos') && |L'| == |L|
    requires forall l :: 0 <= l && k < l < |L| ==> L'[l] == L[l] && pos'[l] == pos[l]
    requires forall l :: 0 <= l && k < l < |L| - 1 ==> node'[l] == node[l] && entry'[l] == entry[l]
    requires forall l :: 0 <= l && k < l < |L| - 1 ==> AgreeOn(view, view', L[l])
    ensures LowerPath(view', L', node', entry', pos', k)
  {
    hide Expand, KidsOf;
    forall l | 0 <= l && k < l < |L| - 1 ensures OnNode(L', node', pos', l) && Link(view', L', entry', pos', l) {
      assert OnNode(L, node, pos, l) && Link(view, L, entry, pos, l);
      ExpandFrame(view, view', L[l][..pos[l]]);
    }
  }

  /** The levels other than `k` do not notice edits of nodes of level `k` and of unused slots. */
  lemma OthersAgree(view: View, view': View, L: seq<Level>, leafCap: nat, k: nat, X: set<Node>)
    requires k + 1 < |L| && Distinct(L)
    requires forall j :: 0 <= j < |L| - 1 ==> LevelSound(view, L, leafCap, j)
    requires ChangedOnly(view, view', X) && X * AllIds(L) <= Ids(L[k])
    ensures forall l :: 0 <= l < |L| - 1 && l != k ==> AgreeOn(view, view', L[l])
  {
    forall l | 0 <= l < |L| - 1 && l != k ensures AgreeOn(view, view', L[l]) {
      assert Ids(L[l]) <= AllIds(L) && Ids(L[l]) !! Ids(L[k]) && Ids(L[l]) !! X;
      assert LevelSound(view, L, leafCap, l);
      LevelFrame(view, view', L, leafCap, l, X);
    }
  }

  /** Everything a split of the node at position `p` of level `k` must provide. */
  ghost predicate SplitEdit(view: View, view': View, L: seq<Level>, leafCap: nat, k: nat, p: nat, block: Level, crit: Key, rhs: Node) {
    && k + 1 < |L| && p < |L[k]| && L[k][p].Sub?
    && rhs !in Live(view) && rhs < |view'|
    && (|view'| == |view| || |view'| == |view| + 1 == rhs + 1)
    && ChangedOnly(view, view', {L[k][p].id, rhs})
    && KidsOf(view', L[k][p]) + KidsOf(view', Sub(Some(crit), rhs)) == block
    && NodeOk(view', L[k][p], k + 2 == |L|, CapAt(k + 2 == |L|, leafCap)) && HalfFull(view', L[k][p], CapAt(k + 2 == |L|, leafCap))
    && NodeOk(view', Sub(Some(crit), rhs), k + 2 == |L|, CapAt(k + 2 == |L|, leafCap)) && HalfFull(view', Sub(Some(crit), rhs), CapAt(k + 2 == |L|, leafCap))
  }

  lemma SplitLink(view: View, view': View, s: Level, p: nat, node: Item)
    requires p < |s|
    requires forall i :: 0 <= i < |s| && i != p ==> KidsOf(view', s[i]) == KidsOf(view, s[i])
    ensures var t := InsertAt(s, p + 1, node);
      && t[p] == s[p] && t[p + 1] == node
      && Offset(view', t, p) == Offset(view, s, p)
      && Offset(view', t, p + 1) == Offset(view, s, p) + |KidsOf(view', s[p])|
  {
    hide Expand, KidsOf;
    var t := InsertAt(s, p + 1, node);
    assert t[..p] == s[..p];
    ExpandFrame(view, view', s[..p]);
    OffsetStep(view', t, p);
  }

  lemma PendingSound(view: View, L: seq<Level>, leafCap: nat, k: nat, p: nat, block: Level)
    requires Pending(view, L, leafCap, k, p, block)
    ensures forall j :: 0 <= j < |L| - 1 ==> LevelSound(view, L, leafCap, j)
  {
    forall j | 0 <= j < |L| - 1 ensures LevelSound(view, L, leafCap, j) {
      if j != k { assert NodeLevel(view, L, leafCap, j); }
    }
  }

  /** Facts shared by all parts of `SplitStep`. */
  lemma SplitBasics(job: Job, view: View, view': View, L: seq<Level>, pos: seq<nat>, k: nat, p: nat, block: Level, crit: Key, rhs: Node)
    requires Pending(view, L, job.leafCap, k, p, block)
    requires SplitEdit(view, view', L, job.leafCap, k, p, block, crit, rhs)
    requires InsertFacts(job, view, L, pos)
    ensures rhs !in AllIds(L)
    ensures forall i :: 0 <= i < |L[k]| && i != p ==> KidsOf(view', L[k][i]) == KidsOf(view, L[k][i])
    ensures forall l :: 0 <= l < |L| - 1 && l != k ==> AgreeOn(view, view', L[l])
    ensures var L' := L[k := InsertAt(L[k], p + 1, Sub(Some(crit), rhs))];
      && LevelsOkExcept(view', L', job.leafCap, k - 1)
      && (k > 0 ==> LevelSound(view', L, job.leafCap, k - 1) && Linked(view', L, k - 1))
  {
    hide Expand, KidsOf, NodeOk, HalfFull, Patched;
    PendingSound(view, L, job.leafCap, k, p, block);
    IdsLive(view, L, job.leafCap);
    assert L[k][p].id in Ids(L[k]);
    assert Ids(L[k]) <= AllIds(L);
    BlockDoneSplit(view, view', L, job.leafCap, k, p, block, Sub(Some(crit), rhs));
    OthersAgree(view, view', L, job.leafCap, k, {L[k][p].id, rhs});
    LevelUpdate(view, view', L[k], k + 2 == |L|, CapAt(k + 2 == |L|, job.leafCap), p, {L[k][p].id, rhs});
  }

  lemma SplitFacts(job: Job, view: View, view': View, L: seq<Level>, pos: seq<nat>, k: nat, p: nat, block: Level, crit: Key, rhs: Node)
    requires SplitEdit(view, view', L, job.leafCap, k, p, block, crit, rhs)
    requires InsertFacts(job, view, L, pos) && rhs !in AllIds(L)
    ensures InsertFacts(job, view', L[k := InsertAt(L[k], p + 1, Sub(Some(crit), rhs))], pos)
  {
    hide Expand, KidsOf, HalfFull;
    var L' := L[k := InsertAt(L[k], p + 1, Sub(Some(crit), rhs))];
    DistinctInsert(L, k, p + 1, Sub(Some(crit), rhs));
    var x := L[k][p].id;
    assert x in Ids(L[k]) && x in AllIds(L);
    assert x in Live(view);
    assert Live(view') == Live(view) + {rhs};
    assert ChangedOnly(job.view0, view', job.A + AllIds(L'));
  }

  /** The path after a split: still in the left node, or moved to the new one. */
  ghost predicate SplitPath(view: View, view': View, L: seq<Level>, node: seq<Node>, entry: seq<nat>, pos: seq<nat>,
                            node': seq<Node>, entry': seq<nat>, pos': seq<nat>, k: nat, crit: Key, rhs: Node)
  {
    && Buffers(node, entry, pos) && Buffers(node', entry', pos')
    && k + 1 < |L| <= MAX_PATH + 1 && pos[k] < |L[k]| && L[k][pos[k]].Sub?
    && (forall l :: 0 <= l < MAX_PATH && l != k ==> node'[l] == node[l] && entry'[l] == entry[l])
    && (forall l :: 0 <= l <= MAX_PATH && l != k ==> pos'[l] == pos[l])
    && (pos'[k] == pos[k] || pos'[k] == pos[k] + 1)
    && (if pos'[k] == pos[k] then
          && node'[k] == L[k][pos[k]].id && node'[k] != rhs
          && entry'[k] < |KidsOf(view', L[k][pos[k]])|
          && pos[k + 1] == Offset(view, L[k], pos[k]) + entry'[k]
        else
          && node'[k] == rhs
          && entry'[k] < |KidsOf(view', Sub(Some(crit), rhs))|
          && pos[k + 1] == Offset(view, L[k], pos[k]) + |KidsOf(view', L[k][pos[k]])| + entry'[k])
  }

  /** After the split, the path on level `k` is tied to the path below. */
  lemma SplitLower(job: Job, view: View, view': View, L: seq<Level>, node: seq<Node>, entry: seq<nat>, pos: seq<nat>,
                   node': seq<Node>, entry': seq<nat>, pos': seq<nat>, k: nat, block: Level, crit: Key, rhs: Node)
    requires Buffers(node, entry, pos) && k < MAX_PATH && Pending(view, L, job.leafCap, k, pos[k], block)
    requires SplitEdit(view, view', L, job.leafCap, k, pos[k], block, crit, rhs)
    requires SplitPath(view, view', L, node, entry, pos, node', entry', pos', k, crit, rhs)
    requires LowerPath(view, L, node, entry, pos, k) && InsertFacts(job, view, L, pos)
    ensures LowerPath(view', L[k := InsertAt(L[k], pos[k] + 1, Sub(Some(crit), rhs))], node', entry', pos', k - 1)
  {
    hide Expand, KidsOf, NodeOk, HalfFull, Patched, Pending, Replaced, Offset;
    var L' := L[k := InsertAt(L[k], pos[k] + 1, Sub(Some(crit), rhs))];
    SplitBasics(job, view, view', L, pos, k, pos[k], block, crit, rhs);
    LowerFrame(view, view', L, L', node, entry, pos, node', entry', pos', k);
    SplitLink(view, view', L[k], pos[k], Sub(Some(crit), rhs));
    assert OnNode(L', node', pos', k) && Link(view', L', entry', pos', k);
    forall l | 0 <= l && k - 1 < l < |L'| - 1 ensures OnNode(L', node', pos', l) && Link(view', L', entry', pos', l) {
    }
  }

  /** After the split, the new node is pending one level up. */
  lemma SplitUpper(job: Job, view: View, view': View, L: seq<Level>, node: seq<Node>, entry: seq<nat>, pos: seq<nat>,
                   node': seq<Node>, entry': seq<nat>, pos': seq<nat>, k: nat, block: Level, crit: Key, rhs: Node)
    requires Buffers(node, entry, pos) && k < MAX_PATH && Pending(view, L, job.leafCap, k, pos[k], block)
    requires SplitEdit(view, view', L, job.leafCap, k, pos[k], block, crit, rhs)
    requires SplitPath(view, view', L, node, entry, pos, node', entry', pos', k, crit, rhs)
    requires PathTo(view, L, node, entry, pos, k + 1) && InsertFacts(job, view, L, pos)
    requires k > 0
    ensures var L' := L[k := InsertAt(L[k], pos[k] + 1, Sub(Some(crit), rhs))];
      && UpperPath(view', L', node', entry', pos', k)
      && pos[k] == Offset(view', L'[k - 1], pos'[k - 1]) + entry'[k - 1]
      && Pending(view', L', job.leafCap, k - 1, pos'[k - 1],
                 InsertAt(KidsOf(view', L'[k - 1][pos'[k - 1]]), entry'[k - 1] + 1, Sub(Some(crit), rhs)))
  {
    hide Expand, KidsOf, NodeOk, HalfFull, Patched, Pending, Replaced;
    var L' := L[k := InsertAt(L[k], pos[k] + 1, Sub(Some(crit), rhs))];
    SplitBasics(job, view, view', L, pos, k, pos[k], block, crit, rhs);
    assert Link(view, L, entry, pos, k - 1) && OnNode(L, node, pos, k - 1);
    var s, p := L[k - 1], pos[k - 1];
    assert AgreeOn(view, view', s);
    ExpandFrame(view, view', s[..p]);
    PathShorten(view, L, node, entry, pos, k + 1, k);
    UpperFrame(view, view', L, L', node, entry, pos, node', entry', pos', k);
    InsertBelow(view', s, p, entry[k - 1] + 1, Sub(Some(crit), rhs));
    MakePending(view', L', job.leafCap, k - 1, p, InsertAt(KidsOf(view', s[p]), entry[k - 1] + 1, Sub(Some(crit), rhs)), L);
  }

  lemma MakePending(view: View, L: seq<Level>, leafCap: nat, k: nat, p: nat, block: Level, L0: seq<Level>)
    requires k + 1 < |L| == |L0| && p < |L[k]| && L[k] == L0[k]
    requires LevelsOkExcept(view, L, leafCap, k) && LevelSound(view, L0, leafCap, k)
    requires L[k + 1] == Patched(view, L[k], p, block)
    ensures Pending(view, L, leafCap, k, p, block)
  {
  }

  lemma SplitStep(job: Job, view: View, view': View, L: seq<Level>, node: seq<Node>, entry: seq<nat>, pos: seq<nat>,
                  node': seq<Node>, entry': seq<nat>, pos': seq<nat>, k: nat, block: Level, crit: Key, rhs: Node)
    requires Buffers(node, entry, pos) && k < MAX_PATH && Pending(view, L, job.leafCap, k, pos[k], block)
    requires SplitEdit(view, view', L, job.leafCap, k, pos[k], block, crit, rhs)
    requires SplitPath(view, view', L, node, entry, pos, node', entry', pos', k, crit, rhs)
    requires RootOk(L, job.root) && PathTo(view, L, node, entry, pos, k + 1) && LowerPath(view, L, node, entry, pos, k)
    requires InsertFacts(job, view, L, pos)
    ensures SplitState(job, view', L[k := InsertAt(L[k], pos[k] + 1, Sub(Some(crit), rhs))], node', entry', pos', k, crit, rhs)
  {
    hide Expand, KidsOf, NodeOk, HalfFull, Patched, Pending, Offset, Replaced, UpperPath, LowerPath;
    var L' := L[k := InsertAt(L[k], pos[k] + 1, Sub(Some(crit), rhs))];
    SplitBasics(job, view, view', L, pos, k, pos[k], block, crit, rhs);
    SplitFacts(job, view, view', L, pos, k, pos[k], block, crit, rhs);
    SplitLower(job, view, view', L, node, entry, pos, node', entry', pos', k, block, crit, rhs);
    if k > 0 {
      SplitUpper(job, view, view', L, node, entry, pos, node', entry', pos', k, block, crit, rhs);
    } else {
      assert pos[0] == 0 && L'[0] == [Sub(None, job.root), Sub(Some(crit), rhs)];
    }
    assert pos'[|L'| - 1] == pos[|L| - 1];
  }

  /** The tree after a completed insertion, with the path on the new entry. */
  ghost predicate InsertDone(job: Job, view: View, L: seq<Level>, node: seq<Node>, entry: seq<nat>, pos: seq<nat>, root: Node) {
    && TreeOk(view, L, job.leafCap, root)
    && |L| <= MAX_PATH + 1 && PathTo(view, L, node, entry, pos, |L| - 1) && Link(view, L, entry, pos, |L| - 2)
    && pos[|L| - 1] == job.q
    && Replaced(job.view0, view, job.A, AllIds(L))
  }

  /** Upper and lower part of a path join. */
  lemma JoinPath(view: View, L: seq<Level>, node: seq<Node>, entry: seq<nat>, pos: seq<nat>, k: nat)
    requires PathTo(view, L, node, entry, pos, k) && LowerPath(view, L, node, entry, pos, k - 1)
    requires Link(view, L, entry, pos, k - 1)
    ensures PathTo(view, L, node, entry, pos, |L| - 1) && Link(view, L, entry, pos, |L| - 2)
  {
    forall l | 0 <= l < |L| - 1 ensures OnNode(L, node, pos, l) && Link(view, L, entry, pos, l) {
      if l < k - 1 { assert OnNode(L, node, pos, l) && Link(view, L, entry, pos, l); }
      else if l == k - 1 { assert OnNode(L, node, pos, l); }
    }
  }

  /** The level above takes the pending node without a split, which completes the insertion. */
  lemma ParentDone(job: Job, view: View, view': View, L: seq<Level>, node: seq<Node>, entry: seq<nat>, pos: seq<nat>, entry': seq<nat>,
                   k: nat, crit: Key, rhs: Node)
    requires SplitState(job, view, L, node, entry, pos, k, crit, rhs) && k > 0
    requires ChangedOnly(view, view', {L[k - 1][pos[k - 1]].id}) && |view'| == |view| && L[k - 1][pos[k - 1]].Sub?
    requires KidsOf(view', L[k - 1][pos[k - 1]]) == InsertAt(KidsOf(view, L[k - 1][pos[k - 1]]), entry[k - 1] + 1, Sub(Some(crit), rhs))
    requires NodeOk(view', L[k - 1][pos[k - 1]], false, INNER_SIZE)
    requires entry' == entry[k - 1 := entry[k - 1] + if node[k] == rhs then 1 else 0]
    ensures InsertDone(job, view', L, node, entry', pos, job.root)
  {
    hide Expand, KidsOf, NodeOk, Patched, Replaced;
    var l: nat := k - 1;
    var s, p := L[l], pos[l];
    var block := InsertAt(KidsOf(view, s[p]), entry[l] + 1, Sub(Some(crit), rhs));
    PendingSound(view, L, job.leafCap, l, p, block);
    assert p < |s| - 1 ==> HalfFull(view', s[p], INNER_SIZE) by {
      assert LevelSound(view, L, job.leafCap, l);
      assert p < |s| - 1 ==> HalfFull(view, s[p], INNER_SIZE);
    }
    BlockDone(view, view', L, job.leafCap, l, p, block);
    assert s[p].id in Ids(s) && Ids(s) <= AllIds(L);
    OthersAgree(view, view', L, job.leafCap, l, {s[p].id});
    LowerFrame(view, view', L, L, node, entry, pos, node, entry', pos, l);
    UpperFrame(view, view', L, L, node, entry, pos, node, entry', pos, k);
    assert Link(view', L, entry', pos, l) by {
      LevelUpdate(view, view', s, false, INNER_SIZE, p, {s[p].id});
      ExpandFrame(view, view', s[..p]);
    }
    JoinPath(view', L, node, entry', pos, k);
    DoneFacts(job, view, view', L, l, p);
  }

  lemma DoneFacts(job: Job, view: View, view': View, L: seq<Level>, l: nat, p: nat)
    requires l + 1 < |L| && p < |L[l]| && L[l][p].Sub?
    requires ChangedOnly(view, view', {L[l][p].id}) && |view'| == |view|
    requires NodeOk(view', L[l][p], l + 2 == |L|, CapAt(l + 2 == |L|, job.leafCap))
    requires Replaced(job.view0, view, job.A, AllIds(L))
    ensures Replaced(job.view0, view', job.A, AllIds(L))
  {
    hide KidsOf;
    assert L[l][p].id in Ids(L[l]) && Ids(L[l]) <= AllIds(L);
    ReplacedEdit(job.view0, view, view', job.A, AllIds(L), {L[l][p].id});
  }

  lemma RootKids(view: View, root: Node, left: Node, crit: Key, right: Node)
    requires root < |view| && view[root] == Inner([crit], [left, right])
    ensures KidsOf(view, Sub(None, root)) == [Sub(None, left), Sub(Some(crit), right)]
    ensures NodeOk(view, Sub(None, root), false, INNER_SIZE)
    ensures Expand(view, [Sub(None, root)]) == [Sub(None, left), Sub(Some(crit), right)]
  {
    ExpandOne(view, Sub(None, root));
  }

  /** The old root was split: a new root above it and its new sibling completes the tree. */
  lemma RootSplit(job: Job, view: View, view': View, L: seq<Level>, node: seq<Node>, entry: seq<nat>, pos: seq<nat>,
                  crit: Key, rhs: Node, root: Node)
    requires SplitState(job, view, L, node, entry, pos, 0, crit, rhs)
    requires root !in Live(view) && ChangedOnly(view, view', {root}) && root < |view'|
    requires |view'| == |view| || |view'| == |view| + 1 == root + 1
    requires view'[root] == Inner([crit], [job.root, rhs])
    ensures TreeOk(view', [[Sub(None, root)]] + L, job.leafCap, root)
    ensures Replaced(job.view0, view', job.A, AllIds([[Sub(None, root)]] + L))
    ensures forall l :: 0 <= l < |L| - 1 ==> AgreeOn(view, view', L[l])
  {
    hide Expand, KidsOf, Offset, NodeOk, LowerPath, LevelOk;
    var top: Level := [Sub(None, root)];
    var L' := [top] + L;
    assert forall j :: 0 <= j < |L| - 1 ==> LevelSound(view, L, job.leafCap, j) by {
      forall j | 0 <= j < |L| - 1 ensures LevelSound(view, L, job.leafCap, j) { assert NodeLevel(view, L, job.leafCap, j); }
    }
    IdsLive(view, L, job.leafCap);
    ShiftIds(L, root);
    ReplacedGrow(job.view0, view, view', job.A, AllIds(L), root);
    ShiftLevels(view, view', L, job.leafCap, job.root, crit, rhs, root);
    assert L'[0] == top && L'[|L'| - 1] == L[|L| - 1] && L'[1] == L[0];
  }

  lemma ShiftLevels(view: View, view': View, L: seq<Level>, leafCap: nat, oldRoot: Node, crit: Key, rhs: Node, root: Node)
    requires |L| >= 2 && LevelsOkExcept(view, L, leafCap, -1) && L[0] == [Sub(None, oldRoot), Sub(Some(crit), rhs)]
    requires ChangedOnly(view, view', {root}) && root !in AllIds(L)
    requires root < |view'| && view'[root] == Inner([crit], [oldRoot, rhs])
    ensures forall j :: 0 <= j < |L| ==> NodeLevel(view', [[Sub(None, root)]] + L, leafCap, j)
    ensures forall l :: 0 <= l < |L| - 1 ==> AgreeOn(view, view', L[l])
  {
    hide Expand, KidsOf, NodeOk, HalfFull, LevelOk, Ids;
    var top: Level := [Sub(None, root)];
    var L' := [top] + L;
    RootKids(view', root, oldRoot, crit, rhs);
    RootLevelOk(view', root);
    forall j | 0 <= j < |L| - 1 ensures NodeLevel(view', L', leafCap, j + 1) && AgreeOn(view, view', L[j]) {
      assert Ids(L[j]) <= AllIds(L) && NodeLevel(view, L, leafCap, j);
      LevelFrame(view, view', L, leafCap, j, {root});
      assert L'[j + 1] == L[j] && L'[j + 2] == L[j + 1];
    }
    forall j | 0 <= j < |L| ensures NodeLevel(view', L', leafCap, j) {
      if j > 0 { assert NodeLevel(view', L', leafCap, (j - 1) + 1); }
      else { assert L'[0] == top && L'[1] == L[0]; }
    }
  }

  lemma RootLevelOk(view: View, root: Node)
    requires NodeOk(view, Sub(None, root), false, INNER_SIZE)
    ensures LevelOk(view, [Sub(None, root)], false, INNER_SIZE)
  {
  }

  lemma ShiftIds(L: seq<Level>, root: Node)
    requires |L| >= 2 && Distinct(L) && root !in AllIds(L)
    ensures AllIds([[Sub(None, root)]] + L) == AllIds(L) + {root} && Distinct([[Sub(None, root)]] + L)
  {
    hide NoDup, Ids;
    var top: Level := [Sub(None, root)];
    var L' := [top] + L;
    RootIds(root);
    assert L'[0] == top && forall j :: 0 <= j < |L| ==> L'[j + 1] == L[j];
    ShiftAllIds(L, root);
    forall j, k | 0 <= j < k < |L'| - 1 ensures Ids(L'[j]) !! Ids(L'[k]) {
      assert L'[k] == L[k - 1] && Ids(L[k - 1]) <= AllIds(L);
      if j > 0 { assert L'[j] == L[j - 1]; }
    }
    forall k | 0 <= k < |L'| - 1 ensures NoDup(L'[k]) {
      if k > 0 { assert L'[k] == L[k - 1]; }
    }
  }

  lemma RootIds(root: Node)
    ensures Ids([Sub(None, root)]) == {root} && NoDup([Sub(None, root)])
  {
    assert [Sub(None, root)][0].id == root;
  }

  lemma ShiftAllIds(L: seq<Level>, root: Node)
    requires |L| >= 2
    ensures AllIds([[Sub(None, root)]] + L) == AllIds(L) + {root}
  {
    hide Ids;
    var L' := [[Sub(None, root)]] + L;
    RootIds(root);
    forall n ensures n in AllIds(L') <==> n in AllIds(L) + {root} {
      if n in AllIds(L) {
        var k :| 0 <= k < |L| - 1 && n in Ids(L[k]);
        assert L'[k + 1] == L[k] && n in Ids(L'[k + 1]);
      }
      if n == root {
        assert n in Ids(L'[0]);
      }
      if n in AllIds(L') {
        var k :| 0 <= k < |L'| - 1 && n in Ids(L'[k]);
        if k > 0 { assert L'[k] == L[k - 1] && n in Ids(L[k - 1]); }
      }
    }
  }

  /** The path through the new root. */
  lemma RootPath(job: Job, view: View, view': View, L: seq<Level>, node: seq<Node>, entry: seq<nat>, pos: seq<nat>,
                 node': seq<Node>, entry': seq<nat>, pos': seq<nat>, crit: Key, rhs: Node, root: Node)
    requires SplitState(job, view, L, node, entry, pos, 0, crit, rhs) && |L| <= MAX_PATH
    requires forall l :: 0 <= l < |L| - 1 ==> AgreeOn(view, view', L[l])
    requires TreeOk(view', [[Sub(None, root)]] + L, job.leafCap, root)
    requires Replaced(job.view0, view', job.A, AllIds([[Sub(None, root)]] + L))
    requires root < |view'| && view'[root] == Inner([crit], [job.root, rhs])
    requires Buffers(node', entry', pos') && node'[0] == root && pos'[0] == 0
    requires entry'[0] == if node[0] == rhs then 1 else 0
    requires forall l :: 0 <= l < |L| - 1 ==> node'[l + 1] == node[l] && entry'[l + 1] == entry[l]
    requires forall l :: 0 <= l < |L| ==> pos'[l + 1] == pos[l]
    ensures InsertDone(job, view', [[Sub(None, root)]] + L, node', entry', pos', root)
  {
    hide Expand, KidsOf, NodeOk, Replaced, TreeOk, LevelsOkExcept, Distinct, Sorted;
    var top: Level := [Sub(None, root)];
    var L' := [top] + L;
    RootKids(view', root, job.root, crit, rhs);
    assert L'[0] == top;
    assert OnNode(L', node', pos', 0);
    assert Link(view', L', entry', pos', 0) by { ExpandEmpty(view', top); }
    forall l | 0 < l < |L'| - 1 ensures OnNode(L', node', pos', l) && Link(view', L', entry', pos', l) {
      assert L'[l] == L[l - 1] && L'[l + 1] == L[l];
      assert OnNode(L, node, pos, l - 1) && Link(view, L, entry, pos, l - 1) && AgreeOn(view, view', L[l - 1]);
      ExpandFrame(view, view', L[l - 1][..pos[l - 1]]);
    }
  }

  /** `key` fits between its neighbours at position `q`. */
  ghost predicate FitsAt(s: Level, q: nat, key: Key) {
    && q <= |s|
    && (q > 0 ==> s[q - 1].Entry? && s[q - 1].key < key)
    && (q < |s| ==> s[q].Entry? && key < s[q].key)
  }

  lemma SortedInsert(s: Level, q: nat, key: Key, value: Value)
    requires Sorted(s) && FitsAt(s, q, key)
    ensures Sorted(InsertAt(s, q, Entry(key, value)))
  {
    assert forall i :: 0 <= i < q ==> s[i].key <= s[q - 1].key;
    assert forall i :: q <= i < |s| ==> s[q].key <= s[i].key;
  }

  /** The entry list of a tree with the new entry in place, before the leaf has taken it. */
  lemma StartInsert(view: View, L: seq<Level>, leafCap: nat, root: Node, node: seq<Node>, entry: seq<nat>,
                    pos: seq<nat>, key: Key, value: Value,
                    k: nat, q: nat, L1: seq<Level>)
    requires TreeOk(view, L, leafCap, root) && |L| == k + 2 <= MAX_PATH + 1
    requires PathTo(view, L, node, entry, pos, k + 1) && q == pos[k + 1] && pos[k] < |L[k]|
    requires entry[k] <= |KidsOf(view, L[k][pos[k]])| && q == Offset(view, L[k], pos[k]) + entry[k]
    requires FitsAt(L[k + 1], q, key)
    requires L1 == L[k + 1 := InsertAt(L[k + 1], q, Entry(key, value))]
    ensures RootOk(L1, root) && PathTo(view, L1, node, entry, pos, k + 1) && LowerPath(view, L1, node, entry, pos, k)
    ensures Pending(view, L1, leafCap, k, pos[k], InsertAt(KidsOf(view, L1[k][pos[k]]), entry[k], Entry(key, value)))
    ensures InsertFacts(Job(view, AllIds(L), q, leafCap, root), view, L1, pos)
  {
    hide Expand, KidsOf, NodeOk, Patched;
    SortedInsert(L[k + 1], q, key, value);
    forall j | 0 <= j < |L| - 1 ensures LevelSound(view, L, leafCap, j) { assert NodeLevel(view, L, leafCap, j); }
    forall j | 0 <= j < |L| - 1 && j != k ensures NodeLevel(view, L1, leafCap, j) {
      assert NodeLevel(view, L, leafCap, j) && L1[j] == L[j] && L1[j + 1] == L[j + 1];
    }
    assert NodeLevel(view, L, leafCap, k);
    InsertBelow(view, L[k], pos[k], entry[k], Entry(key, value));
    IdsLive(view, L, leafCap);
    SameIds(L, L1);
    ReplacedNothing(view, AllIds(L));
    UpperFrame(view, view, L, L1, node, entry, pos, node, entry, pos, k + 1);
  }

  lemma SameIds(L: seq<Level>, L': seq<Level>)
    requires |L'| == |L| && forall k :: 0 <= k < |L| - 1 ==> L'[k] == L[k]
    ensures AllIds(L') == AllIds(L) && (Distinct(L) ==> Distinct(L'))
  {
  }

  /** The left-most node of each level has no critical key. */
  lemma {:induction false} LeftmostNoCrit(view: View, L: seq<Level>, leafCap: nat, k: nat)
    requires UpperOk(view, L, leafCap, k) && k + 1 < |L|
    ensures |L[k]| > 0 && Low0(L[k][0])
  {
    hide Expand, KidsOf;
    if k > 0 {
      LeftmostNoCrit(view, L, leafCap, k - 1);
      assert NodeLevel(view, L, leafCap, k - 1);
      assert NodeOk(view, L[k - 1][0], false, INNER_SIZE);
      InnerKids(view, L[k - 1][0], INNER_SIZE);
      KidAt(view, L[k - 1], 0, 0);
      ExpandEmpty(view, L[k - 1]);
    }
  }

  ghost predicate Low0(it: Item) {
    it.Sub? && it.ck == None
  }

  /** The leaf takes the new entry without a split. */
  lemma LeafDone(job: Job, view: View, view': View, L: seq<Level>, node: seq<Node>, entry: seq<nat>, pos: seq<nat>, block: Level)
    requires |L| >= 2 && |L| <= MAX_PATH + 1 && RootOk(L, job.root) && PathTo(view, L, node, entry, pos, |L| - 1)
    requires Pending(view, L, job.leafCap, |L| - 2, pos[|L| - 2], block) && InsertFacts(job, view, L, pos)
    requires L[|L| - 2][pos[|L| - 2]].Sub? && ChangedOnly(view, view', {L[|L| - 2][pos[|L| - 2]].id}) && |view'| == |view|
    requires KidsOf(view', L[|L| - 2][pos[|L| - 2]]) == block && |block| == |KidsOf(view, L[|L| - 2][pos[|L| - 2]])| + 1
    requires NodeOk(view', L[|L| - 2][pos[|L| - 2]], true, job.leafCap)
    requires entry[|L| - 2] < |block| && pos[|L| - 1] == Offset(view, L[|L| - 2], pos[|L| - 2]) + entry[|L| - 2]
    ensures InsertDone(job, view', L, node, entry, pos, job.root)
  {
    hide Expand, KidsOf, NodeOk, Patched, Replaced;
    var l: nat := |L| - 2;
    var s, p := L[l], pos[l];
    PendingSound(view, L, job.leafCap, l, p, block);
    assert p < |s| - 1 ==> HalfFull(view', s[p], job.leafCap) by {
      assert LevelSound(view, L, job.leafCap, l);
      assert p < |s| - 1 ==> HalfFull(view, s[p], job.leafCap);
    }
    BlockDone(view, view', L, job.leafCap, l, p, block);
    assert s[p].id in Ids(s) && Ids(s) <= AllIds(L);
    OthersAgree(view, view', L, job.leafCap, l, {s[p].id});
    UpperFrame(view, view', L, L, node, entry, pos, node, entry, pos, l + 1);
    assert Link(view', L, entry, pos, l) by {
      LevelUpdate(view, view', s, true, job.leafCap, p, {s[p].id});
      ExpandFrame(view, view', s[..p]);
    }
    DoneFacts(job, view, view', L, l, p);
  }
}
