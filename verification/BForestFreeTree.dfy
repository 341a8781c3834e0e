/** Freeing a whole tree, sub-tree by sub-tree. */
module BForestFreeTree {
  import opened Prelude
  import opened BForestLevels
  import opened BForestPool
  import opened BForestFrame

  /** The nodes on the `n` node levels that start with `s`. */
  ghost function IdsBelow(view: View, s: Level, n: nat): set<Node>
    decreases n
  {
    if n == 0 then {} else Ids(s) + IdsBelow(view, Expand(view, s), n - 1)
  }

  ghost predicate Sane(view: View, it: Item, leaf: bool) {
    it.Sub? && it.id < |view| && WellFormed(view[it.id], leaf)
  }

  /** The `n` node levels that start with `s` hold different nodes, leaves exactly on the last level. */
  ghost predicate TreeBelow(view: View, s: Level, n: nat)
    decreases n
  {
    n > 0 ==>
      && (forall i :: 0 <= i < |s| ==> Sane(view, s[i], n == 1))
      && NoDup(s) && Ids(s) !! IdsBelow(view, Expand(view, s), n - 1)
      && TreeBelow(view, Expand(view, s), n - 1)
  }

  lemma IdsConcat(a: Level, b: Level)
    ensures Ids(a + b) == Ids(a) + Ids(b)
  {
    forall i | 0 <= i < |a| && a[i].Sub? ensures a[i].id in Ids(a + b) {
      assert (a + b)[i] == a[i];
    }
    forall i | 0 <= i < |b| && b[i].Sub? ensures b[i].id in Ids(a + b) {
      assert (a + b)[|a| + i] == b[i];
    }
  }

  lemma NoDupConcat(a: Level, b: Level)
    requires NoDup(a + b)
    ensures NoDup(a) && NoDup(b) && Ids(a) !! Ids(b)
  {
    assert forall i :: 0 <= i < |a| ==> (a + b)[i] == a[i];
    assert forall i :: 0 <= i < |b| ==> (a + b)[|a| + i] == b[i];
    forall i, j | 0 <= i < j < |b| && b[i].Sub? && b[j].Sub? ensures b[i].id != b[j].id {
      assert (a + b)[|a| + i] == b[i] && (a + b)[|a| + j] == b[j];
    }
  }

  /** Side by side sub-trees have no node in common. */
  lemma {:induction false} BelowSplit(view: View, a: Level, b: Level, n: nat)
    requires TreeBelow(view, a + b, n)
    ensures TreeBelow(view, a, n) && TreeBelow(view, b, n)
    ensures IdsBelow(view, a, n) !! IdsBelow(view, b, n)
    ensures IdsBelow(view, a + b, n) == IdsBelow(view, a, n) + IdsBelow(view, b, n)
    decreases n
  {
    hide Ids, Expand, NoDup;
    if n > 0 {
      ExpandConcat(view, a, b);
      BelowSplit(view, Expand(view, a), Expand(view, b), n - 1);
      IdsConcat(a, b);
      NoDupConcat(a, b);
      assert forall i :: 0 <= i < |a| ==> (a + b)[i] == a[i];
      forall i | 0 <= i < |b| ensures Sane(view, b[i], n == 1) {
        assert (a + b)[|a| + i] == b[i];
      }
    }
  }

  /** Sub-trees do not notice changes of other nodes. */
  lemma {:induction false} BelowFrame(view: View, view': View, s: Level, n: nat, X: set<Node>)
    requires TreeBelow(view, s, n) && ChangedOnly(view, view', X) && IdsBelow(view, s, n) !! X
    ensures TreeBelow(view', s, n) && IdsBelow(view', s, n) == IdsBelow(view, s, n)
    decreases n
  {
    hide Expand;
    if n > 0 {
      forall i | 0 <= i < |s| ensures KidsOf(view', s[i]) == KidsOf(view, s[i]) && Sane(view', s[i], n == 1) {
        assert Sane(view, s[i], n == 1) && s[i].id in Ids(s);
      }
      ExpandFrame(view, view', s);
      BelowFrame(view, view', Expand(view, s), n - 1, X);
    }
  }

  ghost function IdsFrom(L: seq<Level>, k: nat): set<Node> {
    set j, id | k <= j < |L| - 1 && id in Ids(L[j]) :: id
  }

  lemma IdsFromStep(L: seq<Level>, k: nat)
    requires k + 1 < |L| && Distinct(L)
    ensures IdsFrom(L, k) == Ids(L[k]) + IdsFrom(L, k + 1)
    ensures Ids(L[k]) !! IdsFrom(L, k + 1)
  {
    hide Ids, NoDup;
  }

  /** The levels of a well-formed tree from level `k` on. */
  lemma {:induction false} BelowLevels(view: View, L: seq<Level>, leafCap: nat, root: Node, k: nat, n: nat)
    requires TreeOk(view, L, leafCap, root) && k + n + 1 == |L|
    ensures TreeBelow(view, L[k], n) && IdsBelow(view, L[k], n) == IdsFrom(L, k)
    decreases n
  {
    hide Expand, Ids, KidsOf, NoDup;
    if n > 0 {
      BelowLevels(view, L, leafCap, root, k + 1, n - 1);
      assert NodeLevel(view, L, leafCap, k);
      IdsFromStep(L, k);
      forall i | 0 <= i < |L[k]| ensures Sane(view, L[k][i], n == 1) {
        assert NodeOk(view, L[k][i], n == 1, CapAt(n == 1, leafCap));
      }
    }
  }

  /** The nodes `S` became free, and nothing else happened. */
  ghost predicate Freed(view: View, view': View, S: set<Node>) {
    |view'| == |view| && ChangedOnly(view, view', S) && Live(view') == Live(view) - S
  }

  lemma OneNode(view: View, it: Item, n: nat)
    requires n > 0 && TreeBelow(view, [it], n)
    ensures it.Sub? && it.id < |view| && WellFormed(view[it.id], n == 1)
    ensures IdsBelow(view, [it], n) == {it.id} + IdsBelow(view, KidsOf(view, it), n - 1)
    ensures it.id !in IdsBelow(view, KidsOf(view, it), n - 1) && TreeBelow(view, KidsOf(view, it), n - 1)
  {
    hide Expand, KidsOf;
    ExpandOne(view, it);
    assert Sane(view, [it][0], n == 1);
    assert [it][0].id in Ids([it]);
    assert Ids([it]) == {it.id};
  }

  /** The first `i` sub-trees and the next one. */
  lemma NextKid(view: View, kids: Level, i: nat, n: nat)
    requires i < |kids| && TreeBelow(view, kids, n)
    ensures TreeBelow(view, [kids[i]], n)
    ensures IdsBelow(view, kids[..i], n) !! IdsBelow(view, [kids[i]], n)
    ensures IdsBelow(view, kids[..i + 1], n) == IdsBelow(view, kids[..i], n) + IdsBelow(view, [kids[i]], n)
    ensures IdsBelow(view, kids[..i + 1], n) <= IdsBelow(view, kids, n)
  {
    assert kids == kids[..i + 1] + kids[i + 1..];
    BelowSplit(view, kids[..i + 1], kids[i + 1..], n);
    assert kids[..i + 1] == kids[..i] + [kids[i]];
    BelowSplit(view, kids[..i], [kids[i]], n);
  }

  lemma {:induction false} NothingBelow(view: View, n: nat)
    ensures IdsBelow(view, [], n) == {}
  {
    if n > 0 {
      assert Expand(view, []) == [];
      NothingBelow(view, n - 1);
    }
  }

  /** Free the tree below `node`, with `n` node levels, and nothing else. */
  method FreeTree(node: Node, pool: NodePool, ghost ck: Option<Key>, ghost n: nat)
    requires pool.Valid() && n > 0 && TreeBelow(pool.view, [Sub(ck, node)], n)
    modifies pool
    ensures pool.Valid() && pool.Repr == old(pool.Repr)
    ensures Freed(old(pool.view), pool.view, IdsBelow(old(pool.view), [Sub(ck, node)], n))
    decreases n
  {
    hide Expand, KidsOf, FreeListOk, TreeBelow, IdsBelow;
    ghost var view, it := pool.view, Sub(ck, node);
    OneNode(view, it, n);
    NothingBelow(view, n - 1);
    if pool.IsInner(node) {
      FreeKids(node, pool, ck, n);
    } else {
      assert KidsOf(view, it)[..0] == [];
      LeafBelow(view, KidsOf(view, it));
    }
    pool.FreeNode(node);
  }

  lemma LeafBelow(view: View, s: Level)
    ensures IdsBelow(view, s, 0) == {}
  {
  }

  lemma KidOf(view: View, it: Item, i: nat)
    requires it.Sub? && it.id < |view| && WellFormed(view[it.id], false) && i < |view[it.id].tree|
    ensures |KidsOf(view, it)| == |view[it.id].tree| && KidsOf(view, it)[i].Sub? && KidsOf(view, it)[i].id == view[it.id].tree[i]
  {
  }

  /** Free the sub-trees of an inner node one after the other. */
  method FreeKids(node: Node, pool: NodePool, ghost ck: Option<Key>, ghost n: nat)
    requires pool.Valid() && n > 1 && TreeBelow(pool.view, [Sub(ck, node)], n)
    modifies pool
    ensures pool.Valid() && pool.Repr == old(pool.Repr)
    ensures Freed(old(pool.view), pool.view, IdsBelow(old(pool.view), KidsOf(old(pool.view), Sub(ck, node)), n - 1))
    decreases n, 0
  {
    hide Expand, KidsOf, FreeListOk, TreeBelow, IdsBelow;
    ghost var view, it := pool.view, Sub(ck, node);
    OneNode(view, it, n);
    ghost var kids := KidsOf(view, it);
    var count := pool.Entries(node);
    KidOf(view, it, 0);
    assert kids[..0] == [];
    NothingBelow(view, n - 1);
    for i := 0 to count
      invariant pool.Valid() && pool.Repr == old(pool.Repr) && |kids| == count
      invariant Freed(view, pool.view, IdsBelow(view, kids[..i], n - 1))
    {
      KidOf(view, it, i);
      NextKid(view, kids, i, n - 1);
      ghost var view1 := pool.view;
      BelowFrame(view, view1, [kids[i]], n - 1, IdsBelow(view, kids[..i], n - 1));
      FreeTree(pool.Child(node, i), pool, kids[i].ck, n - 1);
    }
    assert kids[..count] == kids;
  }

  /** Freeing the tree at `root` frees exactly its nodes. */
  method FreeWhole(root: Node, pool: NodePool, ghost L: seq<Level>)
    requires pool.Valid() && TreeOk(pool.view, L, pool.leafCap, root)
    modifies pool
    ensures pool.Valid() && pool.Repr == old(pool.Repr)
    ensures Replaced(old(pool.view), pool.view, AllIds(L), {})
  {
    hide Expand, KidsOf, FreeListOk, TreeBelow, IdsBelow;
    BelowLevels(pool.view, L, pool.leafCap, root, 0, |L| - 1);
    assert IdsFrom(L, 0) == AllIds(L);
    FreeTree(root, pool, None, |L| - 1);
  }
}
