/** Positions of a root-to-leaf path within the levels of a tree. */
module BForestPathTheory {
  import opened Prelude
  import opened BForestLevels

  /** `node`, `entry`: the buffers of a path; `pos[l]`: index in level `l` of the node visited there. */
  ghost predicate Buffers(node: seq<Node>, entry: seq<nat>, pos: seq<nat>) {
    |node| == |entry| == MAX_PATH && |pos| == MAX_PATH + 1
  }

  ghost predicate OnNode(L: seq<Level>, node: seq<Node>, pos: seq<nat>, l: nat)
    requires l < |L| && l < |node| && l < |pos|
  {
    pos[l] < |L[l]| && L[l][pos[l]].Sub? && node[l] == L[l][pos[l]].id
  }

  /** Entry `l` of the path names the child that is visited on the next level. */
  ghost predicate Link(view: View, L: seq<Level>, entry: seq<nat>, pos: seq<nat>, l: nat)
    requires l + 1 < |L| && l < |entry| && l + 1 < |pos|
  {
    && pos[l] < |L[l]|
    && entry[l] < |KidsOf(view, L[l][pos[l]])|
    && pos[l + 1] == Offset(view, L[l], pos[l]) + entry[l]
  }

  /** Number of children of the node visited on level `l`. */
  ghost function EntriesAt(view: View, L: seq<Level>, pos: seq<nat>, l: nat): nat {
    if l < |L| && l < |pos| && pos[l] < |L[l]| then |KidsOf(view, L[l][pos[l]])| else 0
  }

  /** The path visits a node on each of the levels `0 .. n - 1`. */
  ghost predicate PathTo(view: View, L: seq<Level>, node: seq<Node>, entry: seq<nat>, pos: seq<nat>, n: nat) {
    && Buffers(node, entry, pos)
    && 0 < n < |L| && n <= MAX_PATH
    && pos[0] == 0
    && (forall l :: 0 <= l < n ==> OnNode(L, node, pos, l))
    && (forall l :: 0 <= l < n - 1 ==> Link(view, L, entry, pos, l))
  }

  /** The levels above `n` are sound and tied together down to level `n`. */
  ghost predicate UpperOk(view: View, L: seq<Level>, leafCap: nat, n: nat) {
    && n < |L| && |L[0]| == 1 && L[0][0].Sub? && L[0][0].ck == None
    && forall k :: 0 <= k < n ==> NodeLevel(view, L, leafCap, k)
  }

  /** The node below a linked entry. */
  lemma Below(view: View, L: seq<Level>, entry: seq<nat>, pos: seq<nat>, l: nat)
    requires l + 1 < |L| && l < |entry| && l + 1 < |pos|
    requires Link(view, L, entry, pos, l) && Linked(view, L, l)
    ensures pos[l + 1] < |L[l + 1]|
    ensures L[l + 1][pos[l + 1]] == KidsOf(view, L[l][pos[l]])[entry[l]]
  {
    hide Expand, KidsOf, Offset;
    KidAt(view, L[l], pos[l], entry[l]);
  }

  /** Right neighbour on the next level: the next child, or the first child of the right neighbour. */
  lemma RightNeighbour(view: View, L: seq<Level>, leafCap: nat, entry: seq<nat>, pos: seq<nat>, l: nat)
    requires l + 1 < |L| && l < |entry| && l + 1 < |pos|
    requires Link(view, L, entry, pos, l) && NodeLevel(view, L, leafCap, l)
    ensures entry[l] + 1 < |KidsOf(view, L[l][pos[l]])| ==>
      && pos[l + 1] + 1 < |L[l + 1]|
      && L[l + 1][pos[l + 1] + 1] == KidsOf(view, L[l][pos[l]])[entry[l] + 1]
    ensures entry[l] + 1 == |KidsOf(view, L[l][pos[l]])| ==>
      && pos[l + 1] + 1 == Offset(view, L[l], pos[l] + 1)
      && (pos[l + 1] + 1 < |L[l + 1]| <==> pos[l] + 1 < |L[l]|)
      && (pos[l + 1] + 1 <= |L[l + 1]|)
      && (pos[l] + 1 < |L[l]| ==> |KidsOf(view, L[l][pos[l] + 1])| > 0 && L[l + 1][pos[l + 1] + 1] == KidsOf(view, L[l][pos[l] + 1])[0])
  {
    hide Expand, KidsOf;
    var s, p, e := L[l], pos[l], entry[l];
    OffsetStep(view, s, p);
    if e + 1 < |KidsOf(view, s[p])| {
      KidAt(view, s, p, e + 1);
    } else if p + 1 < |s| {
      assert NodeOk(view, s[p + 1], l + 2 == |L|, CapAt(l + 2 == |L|, leafCap));
      KidAt(view, s, p + 1, 0);
    }
  }

  /** Left neighbour on the next level: the previous child, or the last child of the left neighbour. */
  lemma LeftNeighbour(view: View, L: seq<Level>, leafCap: nat, entry: seq<nat>, pos: seq<nat>, l: nat)
    requires l + 1 < |L| && l < |entry| && l + 1 < |pos|
    requires Link(view, L, entry, pos, l) && NodeLevel(view, L, leafCap, l) && pos[l + 1] < |L[l + 1]|
    ensures entry[l] > 0 ==> pos[l + 1] > 0 && L[l + 1][pos[l + 1] - 1] == KidsOf(view, L[l][pos[l]])[entry[l] - 1]
    ensures entry[l] == 0 ==>
      && (pos[l + 1] > 0 <==> pos[l] > 0)
      && (pos[l] > 0 ==>
        var ks := KidsOf(view, L[l][pos[l] - 1]);
        && |ks| > 0 && L[l + 1][pos[l + 1] - 1] == ks[|ks| - 1]
        && pos[l + 1] - 1 == Offset(view, L[l], pos[l] - 1) + |ks| - 1)
  {
    hide Expand, KidsOf;
    var s, p, e := L[l], pos[l], entry[l];
    if e > 0 {
      KidAt(view, s, p, e - 1);
    } else if p > 0 {
      assert NodeOk(view, s[p - 1], l + 2 == |L|, CapAt(l + 2 == |L|, leafCap));
      OffsetStep(view, s, p - 1);
      KidAt(view, s, p - 1, |KidsOf(view, s[p - 1])| - 1);
    } else {
      assert s[..0] == [] && Offset(view, s, 0) == 0 by { ExpandEmpty(view, s); }
    }
  }

  lemma ExpandEmpty(view: View, s: Level)
    ensures s[..0] == [] && Offset(view, s, 0) == 0
  {
  }

  /** A path stays valid when the buffers beyond its last level change. */
  lemma PathFrame(view: View, L: seq<Level>, node: seq<Node>, entry: seq<nat>, pos: seq<nat>,
                  node': seq<Node>, entry': seq<nat>, pos': seq<nat>, n: nat)
    requires PathTo(view, L, node, entry, pos, n) && Buffers(node', entry', pos')
    requires forall l :: 0 <= l < n ==> node'[l] == node[l] && pos'[l] == pos[l]
    requires forall l :: 0 <= l < n - 1 ==> entry'[l] == entry[l]
    ensures PathTo(view, L, node', entry', pos', n)
  {
    forall l | 0 <= l < n ensures OnNode(L, node', pos', l) {
      assert OnNode(L, node, pos, l);
    }
    forall l | 0 <= l < n - 1 ensures Link(view, L, entry', pos', l) {
      assert Link(view, L, entry, pos, l);
    }
  }

  lemma PathShorten(view: View, L: seq<Level>, node: seq<Node>, entry: seq<nat>, pos: seq<nat>, n: nat, m: nat)
    requires PathTo(view, L, node, entry, pos, n) && 0 < m <= n
    ensures PathTo(view, L, node, entry, pos, m)
  {
  }

  /** A path can be extended by the child its last entry names. */
  lemma PathExtend(view: View, L: seq<Level>, node: seq<Node>, entry: seq<nat>, pos: seq<nat>, n: nat)
    requires PathTo(view, L, node, entry, pos, n)
    requires n + 1 < |L| && n < MAX_PATH
    requires Linked(view, L, n - 1) && pos[n - 1] < |L[n - 1]|
    requires entry[n - 1] < |KidsOf(view, L[n - 1][pos[n - 1]])|
    requires pos[n] == Offset(view, L[n - 1], pos[n - 1]) + entry[n - 1]
    requires KidsOf(view, L[n - 1][pos[n - 1]])[entry[n - 1]].Sub?
    requires node[n] == KidsOf(view, L[n - 1][pos[n - 1]])[entry[n - 1]].id
    ensures PathTo(view, L, node, entry, pos, n + 1)
  {
    hide Expand, KidsOf, Offset;
    assert Link(view, L, entry, pos, n - 1);
    Below(view, L, entry, pos, n - 1);
  }

  /** The children of an inner node, spelled out. */
  lemma InnerKids(view: View, it: Item, cap: nat)
    requires NodeOk(view, it, false, cap)
    ensures view[it.id].Inner? && |view[it.id].tree| == |view[it.id].keys| + 1 == |KidsOf(view, it)|
    ensures forall i :: 0 <= i < |KidsOf(view, it)| ==>
      KidsOf(view, it)[i] == Sub(if i == 0 then it.ck else Some(view[it.id].keys[i - 1]), view[it.id].tree[i])
  {
  }

  lemma LeafKids(view: View, it: Item, cap: nat)
    requires NodeOk(view, it, true, cap)
    ensures view[it.id].Leaf? && |view[it.id].vals| == |view[it.id].keys| == |KidsOf(view, it)|
    ensures forall i :: 0 <= i < |KidsOf(view, it)| ==> KidsOf(view, it)[i] == Entry(view[it.id].keys[i], view[it.id].vals[i])
  {
  }

  /** The inner node a path visits above its last level. */
  lemma VisitedInner(view: View, L: seq<Level>, leafCap: nat, node: seq<Node>, entry: seq<nat>, pos: seq<nat>, n: nat, l: nat)
    requires PathTo(view, L, node, entry, pos, n) && l < n - 1
    requires UpperOk(view, L, leafCap, n - 1)
    ensures pos[l] < |L[l]| && L[l][pos[l]].Sub? && node[l] == L[l][pos[l]].id
    ensures NodeOk(view, L[l][pos[l]], false, INNER_SIZE)
    ensures node[l] < |view| && WellFormed(view[node[l]], false) && EntriesAt(view, L, pos, l) == |view[node[l]].tree|
    ensures Link(view, L, entry, pos, l) && NodeLevel(view, L, leafCap, l)
  {
    assert OnNode(L, node, pos, l) && NodeLevel(view, L, leafCap, l) && Link(view, L, entry, pos, l);
    InnerKids(view, L[l][pos[l]], INNER_SIZE);
  }

  /** The inner node at the end of a path. */
  lemma VisitedInnerLast(view: View, L: seq<Level>, leafCap: nat, node: seq<Node>, entry: seq<nat>, pos: seq<nat>, l: nat)
    requires PathTo(view, L, node, entry, pos, l + 1) && l + 2 < |L|
    requires UpperOk(view, L, leafCap, l + 1)
    ensures pos[l] < |L[l]| && L[l][pos[l]].Sub? && node[l] == L[l][pos[l]].id
    ensures NodeOk(view, L[l][pos[l]], false, INNER_SIZE)
    ensures node[l] < |view| && WellFormed(view[node[l]], false) && EntriesAt(view, L, pos, l) == |view[node[l]].tree|
  {
    assert OnNode(L, node, pos, l) && NodeLevel(view, L, leafCap, l);
    InnerKids(view, L[l][pos[l]], INNER_SIZE);
  }

  /** The right neighbour on level `l + 1` is the first child of the right neighbour on level `l`. */
  ghost predicate RightFirst(view: View, L: seq<Level>, pos: seq<nat>, l: nat) {
    && l + 1 < |L| && l + 1 < |pos|
    && pos[l] + 1 < |L[l]| && NodeOk(view, L[l][pos[l] + 1], false, INNER_SIZE)
    && pos[l + 1] + 1 == Offset(view, L[l], pos[l] + 1)
    && pos[l + 1] + 1 < |L[l + 1]| && L[l + 1][pos[l + 1] + 1] == KidsOf(view, L[l][pos[l] + 1])[0]
  }

  /** Below the level where the path can turn right, all right neighbours are first children. */
  lemma {:induction false} RightChain(view: View, L: seq<Level>, leafCap: nat, node: seq<Node>, entry: seq<nat>,
                                      pos: seq<nat>, bl: nat, level: nat)
    requires PathTo(view, L, node, entry, pos, level + 1) && UpperOk(view, L, leafCap, level)
    requires bl < level && entry[bl] + 1 < EntriesAt(view, L, pos, bl)
    requires forall l :: bl < l < level ==> entry[l] + 1 == EntriesAt(view, L, pos, l)
    ensures forall l :: bl < l < level ==> RightFirst(view, L, pos, l)
    ensures pos[level] + 1 < |L[level]|
  {
    hide Expand, KidsOf, Offset;
    if bl + 1 < level {
      PathShorten(view, L, node, entry, pos, level + 1, level);
      RightChain(view, L, leafCap, node, entry, pos, bl, level - 1);
    }
    var l := level - 1;
    VisitedInner(view, L, leafCap, node, entry, pos, level + 1, l);
    RightNeighbour(view, L, leafCap, entry, pos, l);
    if bl < l {
      assert NodeOk(view, L[l][pos[l] + 1], false, INNER_SIZE);
    }
  }

  /** A path that takes the first entry everywhere leads to the first node of its last level. */
  lemma {:induction false} FirstOnly(view: View, L: seq<Level>, leafCap: nat, node: seq<Node>, entry: seq<nat>, pos: seq<nat>, level: nat)
    requires PathTo(view, L, node, entry, pos, level + 1) && UpperOk(view, L, leafCap, level)
    requires forall l :: 0 <= l < level ==> entry[l] == 0
    ensures pos[level] == 0
  {
    hide Expand, KidsOf, Offset;
    if level > 0 {
      PathShorten(view, L, node, entry, pos, level + 1, level);
      FirstOnly(view, L, leafCap, node, entry, pos, level - 1);
      VisitedInner(view, L, leafCap, node, entry, pos, level + 1, level - 1);
      assert OnNode(L, node, pos, level);
      LeftNeighbour(view, L, leafCap, entry, pos, level - 1);
    }
  }

  lemma RootLive(view: View, L: seq<Level>, leafCap: nat, root: Node)
    requires TreeOk(view, L, leafCap, root)
    ensures NodeOk(view, L[0][0], |L| == 2, CapAt(|L| == 2, leafCap)) && root < |view|
    ensures UpperOk(view, L, leafCap, |L| - 1)
  {
    assert NodeLevel(view, L, leafCap, 0);
  }

  /** Only the left-most leaf of the tree is entered with nothing to the left of it. */
  lemma FrontOfTree(view: View, L: seq<Level>, leafCap: nat, root: Node, node: seq<Node>, entry: seq<nat>, pos: seq<nat>)
    requires TreeOk(view, L, leafCap, root) && PathTo(view, L, node, entry, pos, |L| - 1)
    requires forall l :: 0 <= l < |L| - 2 ==> entry[l] == 0
    ensures pos[|L| - 2] == 0 && Offset(view, L[|L| - 2], 0) == 0
  {
    RootLive(view, L, leafCap, root);
    FirstOnly(view, L, leafCap, node, entry, pos, |L| - 2);
    ExpandEmpty(view, L[|L| - 2]);
  }

  /** The path takes the last child of the node visited on level `l`. */
  ghost predicate LastChild(view: View, L: seq<Level>, pos: seq<nat>, l: nat) {
    l + 1 < |L| && l + 1 < |pos| && pos[l] < |L[l]| && pos[l + 1] + 1 == Offset(view, L[l], pos[l] + 1)
  }

  /** A path that takes the last child from level `l` on, where `pos0` takes the first, ends right before it. */
  lemma {:induction false} LastBeforeFirst(view: View, L: seq<Level>, pos: seq<nat>, pos0: seq<nat>, l: nat, m: nat)
    requires l <= m < |L| && m < |pos| && m < |pos0|
    requires pos[l] + 1 == pos0[l]
    requires forall k :: l <= k < m ==> LastChild(view, L, pos, k)
    requires forall k :: l <= k < m ==> pos0[k] < |L[k]| && pos0[k + 1] == Offset(view, L[k], pos0[k])
    ensures pos[m] + 1 == pos0[m]
    decreases m
  {
    hide Expand, KidsOf, Offset;
    if l < m {
      LastBeforeFirst(view, L, pos, pos0, l, m - 1);
      assert LastChild(view, L, pos, m - 1);
    }
  }

  /** A path that always takes the last child ends at the last item of each level. */
  lemma {:induction false} LastOnly(view: View, L: seq<Level>, leafCap: nat, root: Node, pos: seq<nat>, m: nat)
    requires TreeOk(view, L, leafCap, root) && m < |L| && m < |pos| && pos[0] == 0
    requires forall k :: 0 <= k < m ==> LastChild(view, L, pos, k)
    ensures pos[m] + 1 == |L[m]|
  {
    hide Expand, KidsOf, LevelOk;
    if m > 0 {
      LastOnly(view, L, leafCap, root, pos, m - 1);
      assert LastChild(view, L, pos, m - 1) && NodeLevel(view, L, leafCap, m - 1);
      OffsetStep(view, L[m - 1], pos[m - 1]);
    }
  }

  /** The upper path survives changes of nodes on its last level and below. */
  lemma UpperFrame(view: View, view': View, L: seq<Level>, L': seq<Level>, node: seq<Node>, entry: seq<nat>, pos: seq<nat>,
                   node': seq<Node>, entry': seq<nat>, pos': seq<nat>, k: nat)
    requires PathTo(view, L, node, entry, pos, k) && Buffers(node', entry', pos') && |L'| == |L|
    requires forall l :: 0 <= l < k ==> L'[l] == L[l] && pos'[l] == pos[l] && node'[l] == node[l]
    requires forall l :: 0 <= l < k - 1 ==> entry'[l] == entry[l] && AgreeOn(view, view', L[l])
    ensures PathTo(view', L', node', entry', pos', k)
  {
    hide Expand, KidsOf;
    forall l | 0 <= l < k ensures OnNode(L', node', pos', l) {
      assert OnNode(L, node, pos, l);
    }
    forall l | 0 <= l < k - 1 ensures Link(view', L', entry', pos', l) {
      assert Link(view, L, entry, pos, l);
      ExpandFrame(view, view', L[l][..pos[l]]);
    }
  }
}
