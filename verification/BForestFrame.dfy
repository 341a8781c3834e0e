/** Which pool slots an operation on one tree may touch. */
module BForestFrame {
  import opened BForestLevels

  /** What one operation starts from: pool, nodes of the tree, cursor position in the entries, root. */
  datatype Job = Job(view0: View, A: set<Node>, q: nat, leafCap: nat, root: Node)

  /** The slots that hold a node of some tree. */
  ghost function Live(view: View): set<Node> {
    set n | 0 <= n < |view| && !view[n].Free?
  }

  /** The nodes `A` of one tree were replaced by the nodes `B`, taken from `A` and from unused slots. */
  ghost predicate Replaced(view: View, view': View, A: set<Node>, B: set<Node>) {
    && ChangedOnly(view, view', A + B)
    && Live(view') == (Live(view) - A) + B
    && (B - A) !! Live(view)
  }

  lemma ReplacedNothing(view: View, A: set<Node>)
    requires A <= Live(view)
    ensures Replaced(view, view, A, A)
  {
  }

  /** Nodes of the tree are edited in place. */
  lemma ReplacedEdit(view0: View, view: View, view': View, A: set<Node>, B: set<Node>, X: set<Node>)
    requires Replaced(view0, view, A, B) && X <= B
    requires ChangedOnly(view, view', X) && |view'| == |view|
    requires forall n :: n in X && n < |view| ==> !view'[n].Free?
    ensures Replaced(view0, view', A, B)
  {
    forall n | 0 <= n < |view'| ensures n in Live(view') <==> n in Live(view) {
      if n in X { assert n in Live(view); }
    }
    assert Live(view') == Live(view);
  }

  /** A node joins the tree from an unused slot. */
  lemma ReplacedGrow(view0: View, view: View, view': View, A: set<Node>, B: set<Node>, n: Node)
    requires Replaced(view0, view, A, B)
    requires n !in Live(view) && ChangedOnly(view, view', {n})
    requires n < |view'| && !view'[n].Free? && (|view'| == |view| || (|view'| == |view| + 1 == n + 1))
    ensures Replaced(view0, view', A, B + {n})
  {
    assert Live(view') == Live(view) + {n};
  }

  /** A node leaves the tree. */
  lemma ReplacedShrink(view0: View, view: View, view': View, A: set<Node>, B: set<Node>, n: Node)
    requires Replaced(view0, view, A, B) && n in B
    requires n < |view| == |view'| && ChangedOnly(view, view', {n}) && view'[n].Free?
    requires A <= Live(view0)
    ensures n in A ==> Replaced(view0, view', A, B - {n})
  {
    assert Live(view') == Live(view) - {n};
  }

  /** The nodes of sound levels are live. */
  lemma IdsLive(view: View, L: seq<Level>, leafCap: nat)
    requires forall k :: 0 <= k < |L| - 1 ==> LevelSound(view, L, leafCap, k)
    ensures AllIds(L) <= Live(view)
  {
    forall n | n in AllIds(L) ensures n in Live(view) {
      var k :| 0 <= k < |L| - 1 && n in Ids(L[k]);
      assert LevelSound(view, L, leafCap, k);
      var i :| 0 <= i < |L[k]| && L[k][i].Sub? && L[k][i].id == n;
      assert NodeOk(view, L[k][i], k + 2 == |L|, CapAt(k + 2 == |L|, leafCap));
    }
  }

  /** Another tree keeps its shape and its entries. */
  lemma OtherTree(view: View, view': View, A: set<Node>, B: set<Node>, M: seq<Level>, leafCap: nat, root: Node)
    requires TreeOk(view, M, leafCap, root)
    requires Replaced(view, view', A, B) && AllIds(M) !! A
    ensures TreeOk(view', M, leafCap, root) && AllIds(M) !! B
  {
    forall k | 0 <= k < |M| - 1 ensures LevelSound(view, M, leafCap, k) {
      assert NodeLevel(view, M, leafCap, k);
    }
    IdsLive(view, M, leafCap);
    assert AllIds(M) !! B;
    forall k | 0 <= k < |M| - 1 ensures NodeLevel(view', M, leafCap, k) {
      assert NodeLevel(view, M, leafCap, k);
      assert Ids(M[k]) <= AllIds(M);
      LevelFrame(view, view', M, leafCap, k, A + B);
    }
  }
}
