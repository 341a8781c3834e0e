/** Insertion at the cursor, with node splits that travel towards the root. */
module BForestInsert {
  import opened Prelude
  import opened BForestLevels
  import opened BForestNode
  import opened BForestPool
  import opened BForestKids
  import opened BForestBlocks
  import opened BForestPathTheory
  import opened BForestPath
  import opened BForestFrame
  import opened BForestInsertTheory
  import opened BForestHeight

  /** Sizes and halves of a leaf that was split to take one more pair at `e`. */
  lemma LeafHalves(keys: seq<Key>, vals: seq<Value>, ck: Option<Key>, e: nat, key: Key, value: Value, m: nat,
                   right: bool, crit: Option<Key>)
    requires |vals| == |keys| && e <= |keys| && m == SplitPos(|keys|, e) && |keys| >= 7
    requires right <==> e > m || (e == m && m > |keys| - m)
    ensures right ==> m <= e
    ensures !right ==> e <= m
    ensures right ==>
      Kids(Leaf(keys[..m], vals[..m]), ck) + Kids(Leaf(InsertAt(keys[m..], e - m, key), InsertAt(vals[m..], e - m, value)), crit)
        == InsertAt(Kids(Leaf(keys, vals), ck), e, Entry(key, value))
    ensures !right ==>
      Kids(Leaf(InsertAt(keys[..m], e, key), InsertAt(vals[..m], e, value)), ck) + Kids(Leaf(keys[m..], vals[m..]), crit)
        == InsertAt(Kids(Leaf(keys, vals), ck), e, Entry(key, value))
    ensures |keys| % 2 == 1 ==> 2 * (if right then m else m + 1) >= |keys| && 2 * (if right then |keys| - m + 1 else |keys| - m) >= |keys|
  {
    KidsLeafSplit(keys, vals, ck, crit, m);
    InsertIntoHalf(Kids(Leaf(keys, vals), ck), m, e, Entry(key, value));
    if right {
      KidsLeafInsert(keys[m..], vals[m..], crit, e - m, key, value);
    } else {
      KidsLeafInsert(keys[..m], vals[..m], ck, e, key, value);
    }
  }

  /** Halves of a full inner node that takes one more sub-tree behind entry `e`. */
  lemma InnerHalves(keys: seq<Key>, tree: seq<Node>, ck: Option<Key>, e: nat, key: Key, child: Node)
    requires |tree| == |keys| + 1 == INNER_SIZE && e < INNER_SIZE
    ensures e >= 4 ==>
      Kids(Inner(keys[..3], tree[..4]), ck) + Kids(Inner(InsertAt(keys[4..], e - 4, key), InsertAt(tree[4..], e - 3, child)), Some(keys[3]))
        == InsertAt(Kids(Inner(keys, tree), ck), e + 1, Sub(Some(key), child))
    ensures e < 4 ==>
      Kids(Inner(InsertAt(keys[..3], e, key), InsertAt(tree[..4], e + 1, child)), ck) + Kids(Inner(keys[4..], tree[4..]), Some(keys[3]))
        == InsertAt(Kids(Inner(keys, tree), ck), e + 1, Sub(Some(key), child))
  {
    KidsInnerSplit(keys, tree, ck, 4);
    InsertIntoHalf(Kids(Inner(keys, tree), ck), 4, e + 1, Sub(Some(key), child));
    if e >= 4 {
      KidsInnerInsert(keys[4..], tree[4..], Some(keys[3]), e - 4, key, child);
    } else {
      KidsInnerInsert(keys[..3], tree[..4], ck, e, key, child);
    }
  }

  /** The leaf split at work, and where the path ends up. */
  lemma LeafSplitEdit(view: View, view3: View, L: seq<Level>, leafCap: nat, k: nat, p: nat, e: nat, key: Key, value: Value,
                      m: nat, right: bool, crit: Key, rhs: Node)
    requires k + 2 == |L| && p < |L[k]| && NodeOk(view, L[k][p], true, leafCap) && |view[L[k][p].id].keys| == leafCap
    requires leafCap == MAP_LEAF || leafCap == SET_LEAF
    requires e <= leafCap && m == SplitPos(leafCap, e) && (right <==> GoesRight(leafCap, m, e))
    requires e == 0 ==> L[k][p].ck == None
    requires var d := view[L[k][p].id];
      && rhs !in Live(view) && rhs < |view3| && (|view3| == |view| || |view3| == |view| + 1 == rhs + 1)
      && ChangedOnly(view, view3, {L[k][p].id, rhs})
      && view3[L[k][p].id] == (if right then Leaf(d.keys[..m], d.vals[..m]) else Leaf(InsertAt(d.keys[..m], e, key), InsertAt(d.vals[..m], e, value)))
      && view3[rhs] == (if right then Leaf(InsertAt(d.keys[m..], e - m, key), InsertAt(d.vals[m..], e - m, value)) else Leaf(d.keys[m..], d.vals[m..]))
      && crit == (if right && e == m then key else d.keys[m])
    ensures SplitEdit(view, view3, L, leafCap, k, p, InsertAt(KidsOf(view, L[k][p]), e, Entry(key, value)), crit, rhs)
    ensures |KidsOf(view3, L[k][p])| == if right then m else m + 1
    ensures |KidsOf(view3, Sub(Some(crit), rhs))| == if right then leafCap - m + 1 else leafCap - m
  {
    hide Expand;
    var d := view[L[k][p].id];
    LeafHalves(d.keys, d.vals, L[k][p].ck, e, key, value, m, right, Some(crit));
  }

  lemma InnerSplitEdit(view: View, view3: View, L: seq<Level>, leafCap: nat, k: nat, p: nat, e: nat, key: Key, child: Node, rhs: Node)
    requires k + 2 < |L| && p < |L[k]| && NodeOk(view, L[k][p], false, INNER_SIZE) && |view[L[k][p].id].tree| == INNER_SIZE
    requires e < INNER_SIZE
    requires var d := view[L[k][p].id];
      && rhs !in Live(view) && rhs < |view3| && (|view3| == |view| || |view3| == |view| + 1 == rhs + 1)
      && ChangedOnly(view, view3, {L[k][p].id, rhs})
      && view3[L[k][p].id] == (if e >= 4 then Inner(d.keys[..3], d.tree[..4]) else Inner(InsertAt(d.keys[..3], e, key), InsertAt(d.tree[..4], e + 1, child)))
      && view3[rhs] == (if e >= 4 then Inner(InsertAt(d.keys[4..], e - 4, key), InsertAt(d.tree[4..], e - 3, child)) else Inner(d.keys[4..], d.tree[4..]))
    ensures SplitEdit(view, view3, L, leafCap, k, p, InsertAt(KidsOf(view, L[k][p]), e + 1, Sub(Some(key), child)), view[L[k][p].id].keys[3], rhs)
    ensures |KidsOf(view3, L[k][p])| == if e >= 4 then 4 else 5
    ensures |KidsOf(view3, Sub(Some(view[L[k][p].id].keys[3]), rhs))| == if e >= 4 then 5 else 4
  {
    hide Expand;
    var d := view[L[k][p].id];
    InnerHalves(d.keys, d.tree, L[k][p].ck, e, key, child);
  }

  ghost predicate InSplitState(job: Job, path: Path, pool: NodePool, L: seq<Level>, k: nat, crit: Key, rhs: Node)
    reads path, path.Repr(), pool, pool.Repr
  {
    && Ready(path, pool) && pool.leafCap == job.leafCap && path.size == |L| - 1
    && SplitState(job, pool.view, L, path.node[..], path.entry[..], path.pos, k, crit, rhs)
  }

  /** The level `k` of the path is about to take `block`. */
  ghost predicate PendingAt(job: Job, path: Path, pool: NodePool, L: seq<Level>, k: nat, block: Level)
    reads path, path.Repr(), pool, pool.Repr
  {
    && Ready(path, pool) && pool.leafCap == job.leafCap && path.size == |L| - 1 && k < MAX_PATH
    && RootOk(L, job.root) && path.At(pool.view, L, k + 1)
    && Pending(pool.view, L, job.leafCap, k, path.pos[k], block)
    && LowerPath(pool.view, L, path.node[..], path.entry[..], path.pos, k)
    && InsertFacts(job, pool.view, L, path.pos)
  }

  /** ... but the node it visits is full. */
  ghost predicate FullAt(job: Job, path: Path, pool: NodePool, L: seq<Level>, k: nat, block: Level)
    reads path, path.Repr(), pool, pool.Repr
  {
    PendingAt(job, path, pool, L, k, block) && |KidsOf(pool.view, L[k][path.pos[k]])| == CapAt(k + 2 == |L|, job.leafCap)
  }

  /** Move the path on level `k` to the new right node, `shift` entries further to the left in it. */
  method MoveRight(path: Path, k: nat, rhs: Node, shift: nat)
    requires path.Valid() && k < MAX_PATH && shift <= path.entry[k]
    modifies path`pos, path.node, path.entry
    ensures path.pos == old(path.pos)[k := old(path.pos[k]) + 1]
    ensures path.node[..] == old(path.node[..])[k := rhs]
    ensures path.entry[..] == old(path.entry[..])[k := old(path.entry[k]) - shift]
  {
    path.node[k] := rhs;
    path.entry[k] := path.entry[k] - shift;
    path.pos := path.pos[k := path.pos[k] + 1];
  }

  /** What splitting the leaf `x` while inserting a pair at entry `e` does to the pool. */
  ghost predicate LeafSplitView(view: View, view': View, leafCap: nat, x: Node, e: nat, key: Key, value: Value,
                                m: nat, right: bool, crit: Key, rhs: Node)
    requires x < |view| && WellFormed(view[x], true) && |view[x].keys| == leafCap >= 7 && e <= leafCap
  {
    var d := view[x];
    && m == SplitPos(leafCap, e) && (right <==> GoesRight(leafCap, m, e))
    && rhs !in Live(view) && rhs < |view'| && (|view'| == |view| || |view'| == |view| + 1 == rhs + 1)
    && ChangedOnly(view, view', {x, rhs})
    && view'[x] == (if right then Leaf(d.keys[..m], d.vals[..m]) else Leaf(InsertAt(d.keys[..m], e, key), InsertAt(d.vals[..m], e, value)))
    && view'[rhs] == (if right then Leaf(InsertAt(d.keys[m..], e - m, key), InsertAt(d.vals[m..], e - m, value)) else Leaf(d.keys[m..], d.vals[m..]))
    && crit == (if right && e == m then key else d.keys[m])
  }

  /** Split the full leaf `x` for an insertion at `e`, and insert the pair into one of the halves. */
  method SplitLeafNode(x: Node, e: nat, key: Key, value: Value, pool: NodePool) returns (crit: Key, rhs: Node, lhsEntries: nat, right: bool)
    requires pool.Valid() && x < |pool.view| && WellFormed(pool.view[x], true) && |pool.view[x].keys| == pool.leafCap && e <= pool.leafCap
    modifies pool.Repr
    ensures pool.Valid() && fresh(pool.Repr - old(pool.Repr))
    ensures LeafSplitView(old(pool.view), pool.view, pool.leafCap, x, e, key, value, lhsEntries, right, crit, rhs)
  {
    hide FreeListOk, AllApart;
    ghost var view := pool.view;
    var rhsEntries, data;
    lhsEntries, rhsEntries, crit, data := pool.SplitLeaf(x, e);
    ghost var view1, left, half := pool.view, pool.view[x], data.View(pool.leafCap);
    rhs := pool.AllocNode(data);
    assert rhs !in Live(view) && rhs != x && ChangedOnly(view, pool.view, {x, rhs}) && pool.view[x] == left && pool.view[rhs] == half;
    right := e > lhsEntries || (e == lhsEntries && lhsEntries > rhsEntries);
    var target, e' := x, e;
    if right {
      target, e' := rhs, e - lhsEntries;
    }
    var inserted := pool.TryLeafInsert(target, e', key, value);
    assert inserted;
    if e' == 0 && target == rhs {
      crit := key;
    }
  }

  /** Split the full leaf under the cursor and insert the pair into one of the halves. */
  method SplitLeafAndInsert(path: Path, key: Key, value: Value, pool: NodePool, k: nat, ghost block: Level,
                            ghost L: seq<Level>, ghost job: Job)
    returns (crit: Key, rhs: Node, ghost L': seq<Level>)
    requires k + 2 == |L| && FullAt(job, path, pool, L, k, block)
    requires path.entry[k] <= |KidsOf(pool.view, L[k][path.pos[k]])|
    requires block == InsertAt(KidsOf(pool.view, L[k][path.pos[k]]), path.entry[k], Entry(key, value))
    requires path.pos[k + 1] == Offset(pool.view, L[k], path.pos[k]) + path.entry[k]
    requires path.entry[k] == 0 ==> L[k][path.pos[k]].Sub? && L[k][path.pos[k]].ck == None
    modifies path`pos, path.node, path.entry, pool.Repr
    ensures fresh(pool.Repr - old(pool.Repr))
    ensures InSplitState(job, path, pool, L', k, crit, rhs) && |L'| == |L| && L'[|L| - 1] == L[|L| - 1]
  {
    hide Expand, KidsOf, Offset, SplitState, LowerPath, InsertFacts, Pending, PathTo;
    ghost var view, node0, entry0, pos0 := pool.view, path.node[..], path.entry[..], path.pos;
    assert job.leafCap == MAP_LEAF || job.leafCap == SET_LEAF;
    FullLeaf(job, view, L, node0, entry0, pos0, k, block);
    var x, e := path.node[k], path.entry[k];
    var lhsEntries, right;
    crit, rhs, lhsEntries, right := SplitLeafNode(x, e, key, value, pool);
    if right {
      MoveRight(path, k, rhs, lhsEntries);
    }
    LeafSplitEdit(view, pool.view, L, job.leafCap, k, pos0[k], e, key, value, lhsEntries, right, crit, rhs);
    SplitStep(job, view, pool.view, L, node0, entry0, pos0, path.node[..], path.entry[..], path.pos, k, block, crit, rhs);
    L' := L[k := InsertAt(L[k], pos0[k] + 1, Sub(Some(crit), rhs))];
  }

  lemma FullInner(job: Job, view: View, L: seq<Level>, node: seq<Node>, entry: seq<nat>, pos: seq<nat>, k: nat, block: Level)
    requires k + 2 < |L| && PathTo(view, L, node, entry, pos, k + 1) && Pending(view, L, job.leafCap, k, pos[k], block)
    ensures pos[k] < |L[k]| && L[k][pos[k]].Sub? && node[k] == L[k][pos[k]].id && NodeOk(view, L[k][pos[k]], false, INNER_SIZE)
    ensures node[k] < |view| && WellFormed(view[node[k]], false) && |view[node[k]].tree| == |KidsOf(view, L[k][pos[k]])|
  {
    assert OnNode(L, node, pos, k) && LevelSound(view, L, job.leafCap, k);
    InnerKids(view, L[k][pos[k]], INNER_SIZE);
  }

  lemma FullLeaf(job: Job, view: View, L: seq<Level>, node: seq<Node>, entry: seq<nat>, pos: seq<nat>, k: nat, block: Level)
    requires k + 2 == |L| && PathTo(view, L, node, entry, pos, k + 1) && Pending(view, L, job.leafCap, k, pos[k], block)
    ensures pos[k] < |L[k]| && L[k][pos[k]].Sub? && node[k] == L[k][pos[k]].id && NodeOk(view, L[k][pos[k]], true, job.leafCap)
    ensures node[k] < |view| && WellFormed(view[node[k]], true) && |view[node[k]].keys| == |KidsOf(view, L[k][pos[k]])|
  {
    assert OnNode(L, node, pos, k) && LevelSound(view, L, job.leafCap, k);
    LeafKids(view, L[k][pos[k]], job.leafCap);
  }

  /** What splitting the inner node `x` while inserting a sub-tree behind entry `e` does to the pool. */
  ghost predicate InnerSplitView(view: View, view': View, x: Node, e: nat, key: Key, child: Node, crit: Key, rhs: Node)
    requires x < |view| && WellFormed(view[x], false) && |view[x].tree| == INNER_SIZE && e < INNER_SIZE
  {
    var d := view[x];
    && rhs !in Live(view) && rhs < |view'| && (|view'| == |view| || |view'| == |view| + 1 == rhs + 1)
    && ChangedOnly(view, view', {x, rhs})
    && view'[x] == (if e >= 4 then Inner(d.keys[..3], d.tree[..4]) else Inner(InsertAt(d.keys[..3], e, key), InsertAt(d.tree[..4], e + 1, child)))
    && view'[rhs] == (if e >= 4 then Inner(InsertAt(d.keys[4..], e - 4, key), InsertAt(d.tree[4..], e - 3, child)) else Inner(d.keys[4..], d.tree[4..]))
    && crit == d.keys[3]
  }

  /** Split the full inner node `x` and insert a sub-tree behind entry `e`. */
  method SplitInnerNode(x: Node, e: nat, key: Key, child: Node, pool: NodePool) returns (crit: Key, rhs: Node, lhsEntries: nat, right: bool)
    requires pool.Valid() && x < |pool.view| && WellFormed(pool.view[x], false) && |pool.view[x].tree| == INNER_SIZE && e < INNER_SIZE
    modifies pool.Repr
    ensures pool.Valid() && fresh(pool.Repr - old(pool.Repr))
    ensures InnerSplitView(old(pool.view), pool.view, x, e, key, child, crit, rhs)
    ensures lhsEntries == 4 && (right <==> e >= 4)
  {
    hide FreeListOk, AllApart;
    ghost var view := pool.view;
    var rhsEntries, data;
    lhsEntries, rhsEntries, crit, data := pool.SplitInner(x, e);
    ghost var left, half := pool.view[x], data.View(pool.leafCap);
    rhs := pool.AllocNode(data);
    assert rhs !in Live(view) && rhs != x && ChangedOnly(view, pool.view, {x, rhs}) && pool.view[x] == left && pool.view[rhs] == half;
    right := e >= lhsEntries;
    var target, e' := x, e;
    if right {
      target, e' := rhs, e - lhsEntries;
    }
    var inserted := pool.TryInnerInsert(target, e', key, child);
    assert inserted;
  }

  /** Split the full inner node on level `k` and insert the node that was split off below it. */
  method SplitInnerAndInsert(path: Path, crit: Key, rhs: Node, pool: NodePool, k: nat, ghost L: seq<Level>, ghost job: Job)
    returns (crit': Key, rhs': Node, ghost L': seq<Level>)
    requires InSplitState(job, path, pool, L, k + 1, crit, rhs)
    requires |KidsOf(pool.view, L[k][path.pos[k]])| == INNER_SIZE
    modifies path`pos, path.node, path.entry, pool.Repr
    ensures fresh(pool.Repr - old(pool.Repr))
    ensures InSplitState(job, path, pool, L', k, crit', rhs') && |L'| == |L| && L'[|L| - 1] == L[|L| - 1]
  {
    hide Expand, KidsOf, Offset, LowerPath, InsertFacts, Pending, PathTo;
    ghost var view, node0, entry0, pos0 := pool.view, path.node[..], path.entry[..], path.pos;
    ghost var block := InsertAt(KidsOf(view, L[k][pos0[k]]), entry0[k] + 1, Sub(Some(crit), rhs));
    FullInner(job, view, L, node0, entry0, pos0, k, block);
    var x, e := path.node[k], path.entry[k];
    var lhsEntries, right;
    crit', rhs', lhsEntries, right := SplitInnerNode(x, e, crit, rhs, pool);
    if right {
      MoveRight(path, k, rhs', lhsEntries);
    }
    if rhs == path.node[k + 1] {
      path.entry[k] := path.entry[k] + 1;
    }
    InnerSplitEdit(view, pool.view, L, job.leafCap, k, pos0[k], e, crit, rhs, rhs');
    SplitStep(job, view, pool.view, L, node0, entry0, pos0, path.node[..], path.entry[..], path.pos, k, block, crit', rhs');
    L' := L[k := InsertAt(L[k], pos0[k] + 1, Sub(Some(crit'), rhs'))];
  }

  /** The level above the split takes the new node, if it has room; this completes the insertion. */
  method TryParentInsert(path: Path, crit: Key, rhs: Node, pool: NodePool, k: nat, ghost L: seq<Level>, ghost job: Job)
    returns (inserted: bool)
    requires k > 0 && InSplitState(job, path, pool, L, k, crit, rhs)
    modifies path.entry, pool.Repr
    ensures Ready(path, pool) && pool.Repr == old(pool.Repr) && path.size == old(path.size)
    ensures inserted ==> InsertDone(job, pool.view, L, path.node[..], path.entry[..], path.pos, job.root)
    ensures !inserted ==> InSplitState(job, path, pool, L, k, crit, rhs) && |KidsOf(pool.view, L[k - 1][path.pos[k - 1]])| == INNER_SIZE
  {
    hide Expand, KidsOf, Offset, LowerPath, InsertFacts, Pending, PathTo, InsertDone;
    ghost var view, entry0, l: nat := pool.view, path.entry[..], k - 1;
    ghost var it := L[l][path.pos[l]];
    ghost var block := InsertAt(KidsOf(view, it), entry0[l] + 1, Sub(Some(crit), rhs));
    FullInner(job, view, L, path.node[..], entry0, path.pos, l, block);
    inserted := pool.TryInnerInsert(path.node[k - 1], path.entry[k - 1], crit, rhs);
    if inserted {
      if path.node[k] == rhs {
        path.entry[k - 1] := path.entry[k - 1] + 1;
      }
      InnerTakes(view, pool.view, it, entry0[l], crit, rhs);
      ParentDone(job, view, pool.view, L, path.node[..], entry0, path.pos, path.entry[..], k, crit, rhs);
    }
  }

  lemma InnerTakes(view: View, view': View, it: Item, e: nat, key: Key, child: Node)
    requires NodeOk(view, it, false, INNER_SIZE) && |view[it.id].tree| < INNER_SIZE && e < |view[it.id].tree|
    requires view' == view[it.id := Inner(InsertAt(view[it.id].keys, e, key), InsertAt(view[it.id].tree, e + 1, child))]
    ensures KidsOf(view', it) == InsertAt(KidsOf(view, it), e + 1, Sub(Some(key), child))
    ensures NodeOk(view', it, false, INNER_SIZE)
  {
    KidsInnerInsert(view[it.id].keys, view[it.id].tree, it.ck, e, key, child);
  }

  /** Put a new root above the two halves of the old one. */
  method GrowRoot(path: Path, origRoot: Node, crit: Key, rhs: Node, pool: NodePool, ghost L: seq<Level>, ghost job: Job)
    returns (root: Node, ghost L': seq<Level>)
    requires InSplitState(job, path, pool, L, 0, crit, rhs) && |L[|L| - 1]| <= MAX_ENTRIES && origRoot == job.root
    modifies path, path.node, path.entry, pool.Repr
    ensures Ready(path, pool) && fresh(pool.Repr - old(pool.Repr)) && path.size == |L'| - 1
    ensures L' == [[Sub(None, root)]] + L
    ensures InsertDone(job, pool.view, L', path.node[..], path.entry[..], path.pos, root)
  {
    hide Expand, KidsOf, Offset, LowerPath, InsertFacts, PathTo, InsertDone, LevelsOkExcept, TreeOk, Replaced, SplitState;
    ghost var view, node0, entry0, pos0 := pool.view, path.node[..], path.entry[..], path.pos;
    var data := new InnerNode(origRoot, crit, rhs);
    root := pool.AllocNode(InnerSlot(data));
    L' := [[Sub(None, root)]] + L;
    RootSplit(job, view, pool.view, L, node0, entry0, pos0, crit, rhs, root);
    HeightBound(pool.view, L', job.leafCap, root);
    var e := if path.node[0] == rhs then 1 else 0;
    PushLevel(path, root, e);
    RootPath(job, view, pool.view, L, node0, entry0, pos0, path.node[..], path.entry[..], path.pos, crit, rhs, root);
  }

  /** Make room for a new first level of the path. */
  method PushLevel(path: Path, root: Node, e: nat)
    requires path.Valid() && path.size < MAX_PATH
    modifies path, path.node, path.entry
    ensures path.Valid() && path.size == old(path.size) + 1
    ensures path.node[0] == root && path.entry[0] == e && path.pos[0] == 0
    ensures forall l :: 0 <= l < old(path.size) ==> path.node[l + 1] == old(path.node[l]) && path.entry[l + 1] == old(path.entry[l])
    ensures forall l :: 0 <= l < MAX_PATH ==> path.pos[l + 1] == old(path.pos[l])
  {
    path.size := path.size + 1;
    SliceInsert(path.node, 0, path.size, 0, root);
    SliceInsert(path.entry, 0, path.size, 0, e);
    path.pos := [0] + path.pos[..MAX_PATH];
  }

  /** Split nodes upwards from the full leaf under the cursor until a level takes the new node. */
  method SplitAndInsert(path: Path, key: Key, value: Value, pool: NodePool, ghost block: Level, ghost L: seq<Level>, ghost job: Job)
    returns (ghost root: Node, ghost L': seq<Level>)
    requires path.size >= 1 && path.size + 1 == |L| && FullAt(job, path, pool, L, path.size - 1, block)
    requires path.entry[path.size - 1] <= |KidsOf(pool.view, L[path.size - 1][path.pos[path.size - 1]])|
    requires block == InsertAt(KidsOf(pool.view, L[path.size - 1][path.pos[path.size - 1]]), path.entry[path.size - 1], Entry(key, value))
    requires path.pos[path.size] == Offset(pool.view, L[path.size - 1], path.pos[path.size - 1]) + path.entry[path.size - 1]
    requires path.entry[path.size - 1] == 0 ==> L[path.size - 1][path.pos[path.size - 1]].Sub? && L[path.size - 1][path.pos[path.size - 1]].ck == None
    requires |L[|L| - 1]| <= MAX_ENTRIES && path.node[0] == job.root
    modifies path, path.node, path.entry, pool.Repr
    ensures Ready(path, pool) && fresh(pool.Repr - old(pool.Repr)) && path.size == |L'| - 1
    ensures |L'| >= 2 && L'[|L'| - 1] == L[|L| - 1]
    ensures InsertDone(job, pool.view, L', path.node[..], path.entry[..], path.pos, root)
  {
    hide Expand, KidsOf, Offset, SplitState, LowerPath, PathTo, Pending, InsertFacts, InsertDone;
    var origRoot := path.node[0];
    var level := path.size - 1;
    var crit, rhs;
    crit, rhs, L' := SplitLeafAndInsert(path, key, value, pool, level, block, L, job);
    while level > 0
      invariant 0 <= level < path.size && InSplitState(job, path, pool, L', level, crit, rhs)
      invariant |L'| == |L| && L'[|L'| - 1] == L[|L| - 1] && path.size == |L| - 1
      invariant fresh(pool.Repr - old(pool.Repr))
    {
      var inserted := TryParentInsert(path, crit, rhs, pool, level, L', job);
      if inserted {
        root := job.root;
        return;
      }
      level := level - 1;
      crit, rhs, L' := SplitInnerAndInsert(path, crit, rhs, pool, level, L', job);
    }
    root, L' := GrowRoot(path, origRoot, crit, rhs, pool, L', job);
  }

  /** The leaf under the cursor takes the pair, if it has room; this completes the insertion. */
  method TryLeafInsert(path: Path, key: Key, value: Value, pool: NodePool, ghost block: Level, ghost L: seq<Level>, ghost job: Job)
    returns (inserted: bool)
    requires |L| >= 2 && PendingAt(job, path, pool, L, |L| - 2, block)
    requires path.entry[|L| - 2] <= |KidsOf(pool.view, L[|L| - 2][path.pos[|L| - 2]])|
    requires block == InsertAt(KidsOf(pool.view, L[|L| - 2][path.pos[|L| - 2]]), path.entry[|L| - 2], Entry(key, value))
    requires path.pos[|L| - 1] == Offset(pool.view, L[|L| - 2], path.pos[|L| - 2]) + path.entry[|L| - 2]
    requires path.entry[|L| - 2] == 0 ==> L[|L| - 2][path.pos[|L| - 2]].Sub? && L[|L| - 2][path.pos[|L| - 2]].ck == None
    modifies pool.Repr
    ensures Ready(path, pool) && pool.Repr == old(pool.Repr)
    ensures inserted ==> InsertDone(job, pool.view, L, path.node[..], path.entry[..], path.pos, job.root)
    ensures !inserted ==> pool.view == old(pool.view) && FullAt(job, path, pool, L, |L| - 2, block)
  {
    hide Expand, KidsOf, Offset, LowerPath, InsertFacts, Pending, PathTo, InsertDone;
    ghost var k: nat, view := |L| - 2, pool.view;
    FullLeaf(job, view, L, path.node[..], path.entry[..], path.pos, k, block);
    var x, e := path.node[path.size - 1], path.entry[path.size - 1];
    inserted := pool.TryLeafInsert(x, e, key, value);
    if inserted {
      LeafTakes(view, pool.view, L[k][path.pos[k]], e, key, value, job.leafCap);
      LeafDone(job, view, pool.view, L, path.node[..], path.entry[..], path.pos, block);
    } else {
      assert |KidsOf(view, L[k][path.pos[k]])| == job.leafCap by { LeafFull(view, L[k][path.pos[k]], job.leafCap); }
    }
  }

  lemma LeafFull(view: View, it: Item, leafCap: nat)
    requires NodeOk(view, it, true, leafCap) && |view[it.id].keys| >= leafCap
    ensures |KidsOf(view, it)| == leafCap
  {
  }

  lemma LeafTakes(view: View, view': View, it: Item, e: nat, key: Key, value: Value, leafCap: nat)
    requires NodeOk(view, it, true, leafCap) && |view[it.id].keys| < leafCap && e <= |view[it.id].keys|
    requires view' == view[it.id := Leaf(InsertAt(view[it.id].keys, e, key), InsertAt(view[it.id].vals, e, value))]
    requires e == 0 ==> it.ck == None
    ensures KidsOf(view', it) == InsertAt(KidsOf(view, it), e, Entry(key, value))
    ensures NodeOk(view', it, true, leafCap)
  {
    KidsLeafInsert(view[it.id].keys, view[it.id].vals, it.ck, e, key, value);
  }

  /**
   * Insert a pair at the cursor, which must be the place where the key belongs.  The tree gains
   * exactly that entry, keeps its invariant, and the path is left on the new entry.
   */
  method Insert(path: Path, key: Key, value: Value, pool: NodePool, ghost L: seq<Level>, ghost root: Node)
    returns (root': Node, ghost L': seq<Level>)
    requires Ready(path, pool) && |L| <= MAX_PATH + 1
    requires TreeOk(pool.view, L, pool.leafCap, root) && path.AtCursor(pool.view, L) && path.node[0] == root
    requires FitsAt(L[|L| - 1], path.pos[path.size], key) && (path.entry[path.size - 1] == 0 ==> path.AtFirst())
    requires |L[|L| - 1]| < MAX_ENTRIES
    modifies path, path.node, path.entry, pool.Repr
    ensures Ready(path, pool) && fresh(pool.Repr - old(pool.Repr))
    ensures |L'| <= MAX_PATH + 1 && TreeOk(pool.view, L', pool.leafCap, root')
    ensures L'[|L'| - 1] == InsertAt(L[|L| - 1], old(path.pos[path.size]), Entry(key, value))
    ensures path.OnEntry(pool.view, L') && path.pos[path.size] == old(path.pos[path.size]) && path.node[0] == root'
    ensures Replaced(old(pool.view), pool.view, AllIds(L), AllIds(L'))
  {
    hide Expand, KidsOf, Offset, TreeOk, LowerPath, InsertFacts, Pending, PathTo, Replaced;
    ghost var k: nat, q, view := |L| - 2, path.pos[path.size], pool.view;
    ghost var L1 := L[k + 1 := InsertAt(L[k + 1], q, Entry(key, value))];
    ghost var job := Job(view, AllIds(L), q, pool.leafCap, root);
    ghost var block := InsertAt(KidsOf(view, L[k][path.pos[k]]), path.entry[k], Entry(key, value));
    StartInsert(view, L, pool.leafCap, root, path.node[..], path.entry[..], path.pos, key, value, k, q, L1);
    FrontLeaf(path, view, L, pool.leafCap, root);
    var inserted := TryLeafInsert(path, key, value, pool, block, L1, job);
    ghost var newRoot := root;
    L' := L1;
    if !inserted {
      newRoot, L' := SplitAndInsert(path, key, value, pool, block, L1, job);
    }
    root' := path.node[0];
    OnNewEntry(job, path, pool.view, L', newRoot);
  }

  /** The cursor stands before the first entry of a leaf only in the left-most leaf. */
  lemma FrontLeaf(path: Path, view: View, L: seq<Level>, leafCap: nat, root: Node)
    requires TreeOk(view, L, leafCap, root) && path.AtCursor(view, L)
    requires path.entry[path.size - 1] == 0 ==> path.AtFirst()
    ensures path.entry[path.size - 1] == 0 ==> L[|L| - 2][path.pos[|L| - 2]].Sub? && L[|L| - 2][path.pos[|L| - 2]].ck == None
  {
    if path.entry[path.size - 1] == 0 {
      FrontOfTree(view, L, leafCap, root, path.node[..], path.entry[..], path.pos);
      RootLive(view, L, leafCap, root);
      LeftmostNoCrit(view, L, leafCap, |L| - 2);
    }
  }

  lemma OnNewEntry(job: Job, path: Path, view: View, L: seq<Level>, root: Node)
    requires path.Valid() && path.size == |L| - 1 && |L| >= 2
    requires InsertDone(job, view, L, path.node[..], path.entry[..], path.pos, root)
    ensures path.OnEntry(view, L) && path.pos[path.size] == job.q && path.node[0] == root
    ensures TreeOk(view, L, job.leafCap, root) && |L| <= MAX_PATH + 1 && Replaced(job.view0, view, job.A, AllIds(L))
  {
    hide Expand, KidsOf, Offset;
    assert OnNode(L, path.node[..], path.pos, 0) && Link(view, L, path.entry[..], path.pos, |L| - 2);
  }
}
