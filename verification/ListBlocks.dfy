/** The array of a list pool: a tiling by blocks of power-of-two sizes, with one free list per size class. */
module ListBlocks {

  type Word = nat

  function Pow2(n: nat): (r: nat)
    ensures r >= 1
  {
    if n == 0 then 1 else 2 * Pow2(n - 1)
  }

  /** Size of the blocks of a class, length field included. */
  function SClassSize(sclass: nat): (r: nat)
    ensures r >= 4
  {
    4 * Pow2(sclass)
  }

  /** Index of the highest bit that is set. */
  function HighBit(x: nat): (r: nat)
    requires x > 0
    ensures r == 0 <==> x == 1
  {
    if x == 1 then 0 else 1 + HighBit(x / 2)
  }

  /** Leading zero bits of a 32-bit number. */
  function LeadingZeros(x: nat): int {
    if x == 0 then 32 else 31 - HighBit(x)
  }

  /** `x` with its two lowest bits set. */
  function Or3(x: nat): nat {
    x - x % 4 + 3
  }

  /** The size class for a list of `len` elements and its length field. */
  function SClassForLength(len: nat): nat {
    30 - LeadingZeros(Or3(len))
  }

  predicate IsSClassMinLength(len: nat) {
    len > 3 && Pow2(HighBit(len)) == len
  }

  lemma {:induction false} HighBitBounds(x: nat)
    requires x > 0
    ensures Pow2(HighBit(x)) <= x < 2 * Pow2(HighBit(x))
  {
    if x > 1 { HighBitBounds(x / 2); }
  }

  lemma {:induction false} HighBitUnique(x: nat, b: nat)
    requires x > 0 && Pow2(b) <= x < 2 * Pow2(b)
    ensures HighBit(x) == b
  {
    if b > 0 { HighBitUnique(x / 2, b - 1); }
  }

  /** Blocks have 4, 8, 16, ... words. */
  lemma ClassSizes(c: nat)
    ensures SClassSize(0) == 4 && SClassSize(c + 1) == 2 * SClassSize(c)
  {
  }

  /** The class is the smallest one that has room for the elements and the length field. */
  lemma SClassFits(len: nat)
    ensures len + 1 <= SClassSize(SClassForLength(len))
    ensures SClassForLength(len) > 0 ==> SClassSize(SClassForLength(len) - 1) < len + 1
  {
    hide Pow2, HighBit;
    var q, x := len / 4, Or3(len);
    assert x == 4 * q + 3 && 4 * q <= len <= 4 * q + 3;
    HighBitBounds(x);
    var h := HighBit(x);
    PowStep(h);
    if h > 1 {
      PowStep(h - 1);
      assert SClassSize(h - 2) == 4 * Pow2(h - 2) <= 4 * q;
    }
  }

  lemma PowStep(h: nat)
    ensures h == 0 ==> Pow2(h) == 1
    ensures h > 0 ==> Pow2(h) == 2 * Pow2(h - 1)
  {
  }

  lemma SClassIs(len: nat, c: nat)
    requires len < SClassSize(c) && (c > 0 ==> SClassSize(c - 1) <= len)
    ensures SClassForLength(len) == c
  {
    assert SClassSize(c) == 2 * Pow2(c + 1);
    if c > 0 { assert Pow2(c + 1) == 4 * Pow2(c - 1); }
    HighBitUnique(Or3(len), c + 1);
  }

  /** The class changes exactly at the minimal lengths. */
  lemma NextClass(len: nat)
    requires len >= 1
    ensures SClassForLength(len + 1) == SClassForLength(len) + if IsSClassMinLength(len + 1) then 1 else 0
  {
    SClassFits(len);
    var c: nat := SClassForLength(len);
    assert SClassSize(c) == Pow2(c + 2);
    if len + 1 == SClassSize(c) {
      HighBitUnique(len + 1, c + 2);
      assert SClassSize(c + 1) == 2 * SClassSize(c);
      SClassIs(len + 1, c + 1);
    } else {
      SClassIs(len + 1, c);
      if IsSClassMinLength(len + 1) {
        PowerInClass(len + 1, HighBit(len + 1), c);
      }
    }
  }

  lemma PowMono(a: nat, b: nat)
    requires a <= b
    ensures Pow2(a) <= Pow2(b)
    decreases b - a
  {
    if a < b { PowMono(a, b - 1); }
  }

  /** A power of two below the block size of a class does not exceed that of the class before. */
  lemma PowerInClass(n: nat, b: nat, c: nat)
    requires n == Pow2(b) && 3 < n < SClassSize(c)
    ensures c > 0 && n <= SClassSize(c - 1)
  {
    assert SClassSize(c) == Pow2(c + 2);
    if b >= c + 2 { PowMono(c + 2, b); }
    PowMono(b, c + 1);
    assert Pow2(1) == 2 && Pow2(c + 1) == 2 * Pow2(c);
    assert c > 0 ==> Pow2(c) == 2 * Pow2(c - 1);
  }

  // ---------------------------------------------------------------- blocks

  ghost predicate Covered(tiles: map<nat, nat>, i: nat) {
    exists s :: s in tiles && s <= i < s + SClassSize(tiles[s])
  }

  /** The blocks `tiles` (start to class) tile an array of `n` words exactly. */
  ghost predicate Tiling(tiles: map<nat, nat>, n: nat) {
    && (forall s :: s in tiles ==> s + SClassSize(tiles[s]) <= n)
    && (forall s, t :: s in tiles && t in tiles && s < t ==> s + SClassSize(tiles[s]) <= t)
    && (forall i :: 0 <= i < n ==> Covered(tiles, i))
  }

  /** Block `j` of the free list `chain` of class `k`: a cleared length field and the link to the next block. */
  ghost predicate ChainAt(data: seq<Word>, tiles: map<nat, nat>, chain: seq<nat>, k: nat, j: nat)
    requires j < |chain|
  {
    && chain[j] in tiles && tiles[chain[j]] == k && chain[j] + 1 < |data|
    && data[chain[j]] == 0
    && data[chain[j] + 1] == if j + 1 < |chain| then chain[j + 1] + 1 else 0
  }

  ghost predicate ChainOk(data: seq<Word>, tiles: map<nat, nat>, chain: seq<nat>, head: nat, k: nat) {
    && head == (if chain == [] then 0 else chain[0] + 1)
    && (forall j :: 0 <= j < |chain| ==> ChainAt(data, tiles, chain, k, j))
    && (forall i, j :: 0 <= i < j < |chain| ==> chain[i] != chain[j])
  }

  ghost predicate FreeLists(data: seq<Word>, free: seq<nat>, tiles: map<nat, nat>, chains: seq<seq<nat>>) {
    && |chains| == |free|
    && forall k :: 0 <= k < |chains| ==> ChainOk(data, tiles, chains[k], free[k], k)
  }

  ghost predicate OnFreeList(tiles: map<nat, nat>, chains: seq<seq<nat>>, s: nat)
    requires s in tiles
  {
    tiles[s] < |chains| && s in chains[tiles[s]]
  }

  /** Every block is either taken or on the free list of its class. */
  ghost predicate Accounted(tiles: map<nat, nat>, chains: seq<seq<nat>>, taken: set<nat>) {
    && taken <= tiles.Keys
    && forall s :: s in tiles ==> (s in taken <==> !OnFreeList(tiles, chains, s))
  }

  ghost predicate BlocksOk(data: seq<Word>, free: seq<nat>, tiles: map<nat, nat>, chains: seq<seq<nat>>, taken: set<nat>) {
    Tiling(tiles, |data|) && FreeLists(data, free, tiles, chains) && Accounted(tiles, chains, taken)
  }

  /** The words of the blocks `X` are the same in both arrays. */
  ghost predicate SameBlocks(data: seq<Word>, data': seq<Word>, tiles: map<nat, nat>, X: set<nat>) {
    |data| <= |data'| && forall s :: s in X && s in tiles ==> SameBlock(data, data', s, SClassSize(tiles[s]))
  }

  ghost predicate SameBlock(data: seq<Word>, data': seq<Word>, s: nat, size: nat) {
    s + size <= |data| && s + size <= |data'| && forall i :: s <= i < s + size ==> data'[i] == data[i]
  }

  ghost predicate Extends(tiles: map<nat, nat>, tiles': map<nat, nat>) {
    forall s :: s in tiles ==> s in tiles' && tiles'[s] == tiles[s]
  }

  /** A free list whose blocks are not touched stays in order. */
  lemma ChainStays(data: seq<Word>, data': seq<Word>, tiles: map<nat, nat>, tiles': map<nat, nat>, chain: seq<nat>, head: nat, k: nat)
    requires ChainOk(data, tiles, chain, head, k) && Extends(tiles, tiles') && |data| <= |data'|
    requires forall s :: s in chain && s + 1 < |data| ==> data'[s] == data[s] && data'[s + 1] == data[s + 1]
    ensures ChainOk(data', tiles', chain, head, k)
  {
    forall j | 0 <= j < |chain| ensures ChainAt(data', tiles', chain, k, j) {
      assert ChainAt(data, tiles, chain, k, j) && chain[j] in chain;
    }
  }

  lemma ChainLong(data: seq<Word>, tiles: map<nat, nat>, chain: seq<nat>, head: nat, k: nat, b: nat)
    requires ChainOk(data, tiles, chain, head, k) && b !in chain && b in tiles && tiles[b] == k && b + 1 < |data|
    requires data[b] == 0 && data[b + 1] == head
    ensures ChainOk(data, tiles, [b] + chain, b + 1, k)
  {
    var longer := [b] + chain;
    forall j | 0 <= j < |longer| ensures ChainAt(data, tiles, longer, k, j) {
      if j > 0 { assert ChainAt(data, tiles, chain, k, j - 1) && longer[j] == chain[j - 1]; }
    }
    assert forall i :: 0 < i < |longer| ==> longer[i] == chain[i - 1] && longer[i] in chain;
  }

  lemma ChainShort(data: seq<Word>, tiles: map<nat, nat>, chain: seq<nat>, head: nat, k: nat)
    requires ChainOk(data, tiles, chain, head, k) && chain != []
    ensures head == chain[0] + 1 < |data| && chain[0] in tiles && tiles[chain[0]] == k && data[chain[0]] == 0
    ensures ChainOk(data, tiles, chain[1..], data[head], k) && chain[0] !in chain[1..]
  {
    var rest := chain[1..];
    assert ChainAt(data, tiles, chain, k, 0);
    forall j | 0 <= j < |rest| ensures ChainAt(data, tiles, rest, k, j) {
      assert ChainAt(data, tiles, chain, k, j + 1);
    }
  }

  /** Blocks on free lists are not taken. */
  lemma FreeNotTaken(data: seq<Word>, free: seq<nat>, tiles: map<nat, nat>, chains: seq<seq<nat>>, taken: set<nat>, k: nat, s: nat)
    requires BlocksOk(data, free, tiles, chains, taken) && k < |chains| && s in chains[k]
    ensures s in tiles && tiles[s] == k && s !in taken
  {
    hide Tiling;
    assert ChainOk(data, tiles, chains[k], free[k], k);
    var j :| 0 <= j < |chains[k]| && chains[k][j] == s;
    assert ChainAt(data, tiles, chains[k], k, j);
    assert OnFreeList(tiles, chains, s);
  }

  /** Blocks do not overlap. */
  lemma Outside(tiles: map<nat, nat>, n: nat, s: nat, t: nat, i: nat)
    requires Tiling(tiles, n) && s in tiles && t in tiles && s != t && s <= i < s + SClassSize(tiles[s])
    ensures !(t <= i < t + SClassSize(tiles[t]))
  {
  }

  lemma TilingGrows(tiles: map<nat, nat>, n: nat, c: nat)
    requires Tiling(tiles, n)
    ensures n !in tiles && Tiling(tiles[n := c], n + SClassSize(c))
  {
    var tiles' := tiles[n := c];
    forall i | 0 <= i < n + SClassSize(c) ensures Covered(tiles', i) {
      if i < n {
        assert Covered(tiles, i);
        var s :| s in tiles && s <= i < s + SClassSize(tiles[s]);
        assert s in tiles' && tiles'[s] == tiles[s];
      } else {
        assert n in tiles';
      }
    }
  }

  /** New memory at the end of the array. */
  lemma GrowOk(data: seq<Word>, free: seq<nat>, tiles: map<nat, nat>, chains: seq<seq<nat>>, taken: set<nat>, c: nat, more: seq<Word>)
    requires BlocksOk(data, free, tiles, chains, taken) && |more| == SClassSize(c)
    requires c < |chains| ==> chains[c] == []
    ensures |data| !in tiles
    ensures BlocksOk(data + more, free, tiles[|data| := c], chains, taken + {|data|})
    ensures SameBlocks(data, data + more, tiles, tiles.Keys)
  {
    hide Covered, ChainOk;
    var data', tiles' := data + more, tiles[|data| := c];
    TilingGrows(tiles, |data|, c);
    forall k | 0 <= k < |chains| ensures ChainOk(data', tiles', chains[k], free[k], k) {
      ChainStays(data, data', tiles, tiles', chains[k], free[k], k);
    }
    forall s | s in tiles' ensures s in taken + {|data|} <==> !OnFreeList(tiles', chains, s) {
      if s in tiles { assert s in taken <==> !OnFreeList(tiles, chains, s); }
    }
  }

  /** The first block of a free list is taken. */
  lemma PopOk(data: seq<Word>, free: seq<nat>, tiles: map<nat, nat>, chains: seq<seq<nat>>, taken: set<nat>, c: nat)
    requires BlocksOk(data, free, tiles, chains, taken) && c < |chains| && chains[c] != []
    ensures var b := chains[c][0];
      && b in tiles && tiles[b] == c && b !in taken && free[c] == b + 1 < |data| && data[b] == 0
      && BlocksOk(data, free[c := data[b + 1]], tiles, chains[c := chains[c][1..]], taken + {b})
  {
    hide Covered, ChainOk;
    var chain := chains[c];
    var b, rest := chain[0], chain[1..];
    var chains' := chains[c := rest];
    assert chain == [b] + rest;
    assert ChainOk(data, tiles, chain, free[c], c);
    ChainShort(data, tiles, chain, free[c], c);
    FreeNotTaken(data, free, tiles, chains, taken, c, b);
    forall k | 0 <= k < |chains| ensures ChainOk(data, tiles, chains'[k], free[c := data[b + 1]][k], k) {
      assert ChainOk(data, tiles, chains[k], free[k], k);
    }
    forall s | s in tiles ensures s in taken + {b} <==> !OnFreeList(tiles, chains', s) {
      assert s in taken <==> !OnFreeList(tiles, chains, s);
    }
  }

  /** A taken block is put in front of the free list of its class. */
  lemma PushOk(data: seq<Word>, free: seq<nat>, tiles: map<nat, nat>, chains: seq<seq<nat>>, taken: set<nat>, c: nat, b: nat)
    requires BlocksOk(data, free, tiles, chains, taken) && c < |chains| && b in taken && tiles[b] == c
    ensures b + 1 < |data|
    ensures var data' := data[b := 0][b + 1 := free[c]];
      && BlocksOk(data', free[c := b + 1], tiles, chains[c := [b] + chains[c]], taken - {b})
      && SameBlocks(data, data', tiles, tiles.Keys - {b})
  {
    hide Covered, ChainOk;
    var data', chains' := data[b := 0][b + 1 := free[c]], chains[c := [b] + chains[c]];
    WriteOk(data, data', free, tiles, chains, taken, b);
    if b in chains[c] { FreeNotTaken(data, free, tiles, chains, taken, c, b); }
    forall k | 0 <= k < |chains| ensures ChainOk(data', tiles, chains'[k], free[c := b + 1][k], k) {
      assert ChainOk(data', tiles, chains[k], free[k], k);
      if k == c { ChainLong(data', tiles, chains[c], free[c], c, b); }
    }
    forall s | s in tiles ensures s in taken - {b} <==> !OnFreeList(tiles, chains', s) {
      assert s in taken <==> !OnFreeList(tiles, chains, s);
    }
  }

  /** Words inside a taken block may change freely. */
  lemma WriteOk(data: seq<Word>, data': seq<Word>, free: seq<nat>, tiles: map<nat, nat>, chains: seq<seq<nat>>, taken: set<nat>, b: nat)
    requires BlocksOk(data, free, tiles, chains, taken) && b in taken
    requires |data'| == |data| && forall i :: 0 <= i < |data| && !(b <= i < b + SClassSize(tiles[b])) ==> data'[i] == data[i]
    ensures BlocksOk(data', free, tiles, chains, taken)
    ensures SameBlocks(data, data', tiles, tiles.Keys - {b})
  {
    hide Covered, ChainOk;
    forall k | 0 <= k < |chains| ensures ChainOk(data', tiles, chains[k], free[k], k) {
      assert ChainOk(data, tiles, chains[k], free[k], k);
      forall s | s in chains[k] && s + 1 < |data| ensures data'[s] == data[s] && data'[s + 1] == data[s + 1] {
        FreeNotTaken(data, free, tiles, chains, taken, k, s);
        Outside(tiles, |data|, s, b, s);
        Outside(tiles, |data|, s, b, s + 1);
      }
      ChainStays(data, data', tiles, tiles, chains[k], free[k], k);
    }
  }

  /** More free lists, all of them empty. */
  lemma WidenOk(data: seq<Word>, free: seq<nat>, tiles: map<nat, nat>, chains: seq<seq<nat>>, taken: set<nat>, n: nat)
    requires BlocksOk(data, free, tiles, chains, taken)
    ensures BlocksOk(data, free + seq(n, _ => 0), tiles, chains + seq(n, _ => []), taken)
  {
    hide Covered, Tiling;
    var free', chains' := free + seq(n, _ => 0), chains + seq(n, _ => []);
    forall k | 0 <= k < |chains'| ensures ChainOk(data, tiles, chains'[k], free'[k], k) {
      if k < |chains| { assert ChainOk(data, tiles, chains[k], free[k], k); }
    }
    forall s | s in tiles ensures s in taken <==> !OnFreeList(tiles, chains', s) {
      assert s in taken <==> !OnFreeList(tiles, chains, s);
    }
  }
}
