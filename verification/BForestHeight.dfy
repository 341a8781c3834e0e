/** How many entries a tree of a given height must have. */
module BForestHeight {
  import opened BForestLevels

  function Pow4(n: nat): nat {
    if n == 0 then 1 else 4 * Pow4(n - 1)
  }

  lemma {:induction false} Pow4Mono(m: nat, n: nat)
    requires m <= n
    ensures Pow4(m) <= Pow4(n)
  {
    if m < n {
      Pow4Mono(m, n - 1);
    }
  }

  /** All nodes of a level but the last have four children or more. */
  lemma {:induction false} PrefixChildren(view: View, s: Level, leaf: bool, cap: nat, i: nat)
    requires LevelOk(view, s, leaf, cap) && cap >= 7 && i < |s|
    ensures Offset(view, s, i) >= 4 * i
  {
    hide Expand, KidsOf, NodeOk;
    if i > 0 {
      PrefixChildren(view, s, leaf, cap, i - 1);
      OffsetStep(view, s, i - 1);
      assert HalfFull(view, s[i - 1], cap);
    }
  }

  lemma Children(view: View, s: Level, leaf: bool, cap: nat)
    requires LevelOk(view, s, leaf, cap) && cap >= 7 && |s| > 0
    ensures |Expand(view, s)| - 1 >= 4 * (|s| - 1)
  {
    hide Expand, KidsOf;
    PrefixChildren(view, s, leaf, cap, |s| - 1);
    OffsetStep(view, s, |s| - 1);
    assert NodeOk(view, s[|s| - 1], leaf, cap);
  }

  lemma {:induction false} LevelSize(view: View, L: seq<Level>, leafCap: nat, root: Node, k: nat)
    requires TreeOk(view, L, leafCap, root) && leafCap >= 7
    requires |L| > 2 && 1 <= k < |L|
    ensures |L[k]| - 1 >= Pow4(k - 1)
  {
    hide Expand, LevelOk;
    if k > 1 {
      LevelSize(view, L, leafCap, root, k - 1);
      assert NodeLevel(view, L, leafCap, k - 1);
      Children(view, L[k - 1], k + 1 == |L|, CapAt(k + 1 == |L|, leafCap));
    }
  }

  /** With at most 2^32 entries no root-to-leaf path is longer than the buffers of a path. */
  lemma HeightBound(view: View, L: seq<Level>, leafCap: nat, root: Node)
    requires TreeOk(view, L, leafCap, root) && leafCap >= 7
    requires |L[|L| - 1]| <= MAX_ENTRIES
    ensures |L| - 1 <= MAX_PATH
  {
    hide TreeOk;
    if |L| - 1 > MAX_PATH {
      LevelSize(view, L, leafCap, root, |L| - 1);
      Pow4Mono(MAX_PATH, |L| - 2);
      Pow4Of16();
    }
  }

  lemma Pow4Of16()
    ensures Pow4(16) == MAX_ENTRIES
  {
    assert Pow4(4) == 256;
    assert Pow4(8) == 0x1_0000;
    assert Pow4(12) == 0x100_0000;
  }
}
