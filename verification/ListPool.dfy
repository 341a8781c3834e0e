/** Small lists that live in one shared array. */
module ListPools {
  import opened Prelude
  import opened ListBlocks

  /** The value that new memory is filled with. */
  const RESERVED: Word := 0xffff_ffff

  /** `data` with the words from `at` on replaced by `s`. */
  function Overwrite(data: seq<Word>, at: nat, s: seq<Word>): (r: seq<Word>)
    requires at + |s| <= |data|
    ensures |r| == |data|
  {
    seq(|data|, i requires 0 <= i < |data| => if at <= i < at + |s| then s[i - at] else data[i])
  }

  /** List `d` is `c` and the words that follow it in memory. */
  ghost predicate InPlace(c: seq<Word>, data: seq<Word>, at: nat, d: seq<Word>) {
    |c| <= |d| && at + |d| <= |data| && d == c + data[at + |c|..at + |d|]
  }

  predicate AllReserved(ws: seq<Word>) {
    forall i :: 0 <= i < |ws| ==> ws[i] == RESERVED
  }

  /**
   * `ws` are the words from offset `lo` on of the next block of a class: those of the first block on
   * the free list, or reserved values if there is none.
   */
  ghost predicate IsNext(data: seq<Word>, free: seq<nat>, sclass: nat, lo: nat, ws: seq<Word>) {
    if sclass < |free| && free[sclass] > 0 then
      free[sclass] - 1 + lo + |ws| <= |data| && ws == data[free[sclass] - 1 + lo..free[sclass] - 1 + lo + |ws|]
    else AllReserved(ws)
  }

  lemma NextPart(data: seq<Word>, free: seq<nat>, sclass: nat, lo: nat, ws: seq<Word>, from: nat, to: nat)
    requires IsNext(data, free, sclass, lo, ws) && from <= to <= |ws|
    ensures IsNext(data, free, sclass, lo + from, ws[from..to])
  {
    if sclass < |free| && free[sclass] > 0 {
      SliceOfSlice(data, free[sclass] - 1 + lo, free[sclass] - 1 + lo + |ws|, from, to);
    }
  }

  lemma SliceOfSlice(data: seq<Word>, a: nat, b: nat, from: nat, to: nat)
    requires a <= b <= |data| && from <= to <= b - a
    ensures data[a..b][from..to] == data[a + from..a + to]
  {
    assert forall i :: 0 <= i < to - from ==> data[a..b][from..to][i] == data[a + from..a + to][i];
  }

  predicate ReservedWords(data: seq<Word>, from: nat, to: nat) {
    forall i :: from <= i < to && i < |data| ==> data[i] == RESERVED
  }

  /**
   * Where a list of `len` elements at `index` will find its elements from `len` to `n`: behind the
   * list if it stays in its block, and otherwise in the next block of the class for `n`.
   */
  predicate ReservedAhead(data: seq<Word>, free: seq<nat>, index: nat, len: nat, n: nat) {
    var sclass := SClassForLength(n);
    if len > 0 && sclass == SClassForLength(len) then ReservedWords(data, index + len, index + n)
    else sclass >= |free| || free[sclass] == 0 || ReservedWords(data, free[sclass] + len, free[sclass] + n)
  }

  /** New elements from the next block of a class are reserved exactly if that block has reserved values in their places. */
  lemma NextReserved(data: seq<Word>, free: seq<nat>, index: nat, len: nat, n: nat, junk: seq<Word>)
    requires len + |junk| == n && !(len > 0 && SClassForLength(n) == SClassForLength(len))
    requires IsNext(data, free, SClassForLength(n), len + 1, junk)
    ensures AllReserved(junk) <==> ReservedAhead(data, free, index, len, n)
  {
    hide SClassForLength;
    var k := SClassForLength(n);
    if k < |free| && free[k] > 0 {
      assert forall i :: 0 <= i < |junk| ==> junk[i] == data[free[k] + len + i];
      if AllReserved(junk) {
        forall i | free[k] + len <= i < free[k] + n && i < |data| ensures data[i] == RESERVED {
          assert junk[i - free[k] - len] == data[i];
        }
      }
    }
  }

  /** The same for new elements in the block of the list. */
  lemma HereReserved(data: seq<Word>, free: seq<nat>, index: nat, len: nat, n: nat, junk: seq<Word>)
    requires len + |junk| == n && len > 0 && SClassForLength(n) == SClassForLength(len)
    requires index + n <= |data| && junk == data[index + len..index + n]
    ensures AllReserved(junk) <==> ReservedAhead(data, free, index, len, n)
  {
    hide SClassForLength;
    if AllReserved(junk) {
      forall i | index + len <= i < index + n && i < |data| ensures data[i] == RESERVED {
        assert junk[i - index - len] == data[i];
      }
    }
  }

  /** A list with elements `c` is stored in front of `index`. */
  ghost predicate ListAt(data: seq<Word>, tiles: map<nat, nat>, taken: set<nat>, index: nat, c: seq<Word>) {
    if c == [] then index == 0
    else
      && index > 0 && index - 1 in taken && index - 1 in tiles
      && tiles[index - 1] == SClassForLength(|c|)
      && index + |c| <= index - 1 + SClassSize(tiles[index - 1]) <= |data|
      && data[index - 1] == |c| && data[index..index + |c|] == c
  }

  /** Block `b` holds the elements `c` and is of the class for them. */
  ghost predicate Stored(data: seq<Word>, tiles: map<nat, nat>, taken: set<nat>, b: nat, c: seq<Word>) {
    && b in taken && b in tiles && tiles[b] == SClassForLength(|c|) && b + 1 + |c| <= b + SClassSize(tiles[b]) <= |data|
    && data[b] == |c| && data[b + 1..b + 1 + |c|] == c
  }

  /** The array before an operation, and the block that the operation may give up. */
  datatype Origin = Origin(data: seq<Word>, tiles: map<nat, nat>, taken: set<nat>, A: set<nat>)

  /** The block of a list. */
  ghost function BlockOf(index: nat): set<nat> {
    if index == 0 then {} else {index - 1}
  }

  /** The blocks `A` gave way to the blocks `B`; all other taken blocks kept their words. */
  ghost predicate Moved(data: seq<Word>, tiles: map<nat, nat>, taken: set<nat>, data': seq<Word>, tiles': map<nat,
                        nat>, taken': set<nat>, A: set<nat>, B: set<nat>) {
    && Extends(tiles, tiles') && taken' == taken - A + B && (B - A) !! taken
    && SameBlocks(data, data', tiles, taken - A)
  }

  lemma MovedTwice(data: seq<Word>, tiles: map<nat, nat>, taken: set<nat>, data1: seq<Word>, tiles1: map<nat, nat>, taken1: set<nat>,
                   data2: seq<Word>, tiles2: map<nat, nat>, taken2: set<nat>, A: set<nat>, B: set<nat>, C: set<nat>, D: set<nat>)
    requires Moved(data, tiles, taken, data1, tiles1, taken1, A, B) && Moved(data1, tiles1, taken1, data2, tiles2, taken2, C, D)
    requires C <= taken1
    ensures Moved(data, tiles, taken, data2, tiles2, taken2, A + (C - B), (B - C) + D)
  {
    forall s | s in taken - (A + (C - B)) && s in tiles ensures SameBlock(data, data2, s, SClassSize(tiles[s])) {
      assert s in taken - A && SameBlock(data, data1, s, SClassSize(tiles[s]));
      assert s in taken1 - C && SameBlock(data1, data2, s, SClassSize(tiles1[s]));
    }
    assert taken2 == taken - (A + (C - B)) + ((B - C) + D);
  }

  /** A list whose block was not touched keeps its elements. */
  lemma ListStays(data: seq<Word>, tiles: map<nat, nat>, taken: set<nat>, data': seq<Word>, tiles': map<nat, nat>,
                  taken': set<nat>, A: set<nat>, B: set<nat>,
                  index: nat, c: seq<Word>)
    requires ListAt(data, tiles, taken, index, c) && Moved(data, tiles, taken, data', tiles', taken', A, B)
    requires BlockOf(index) !! A
    ensures ListAt(data', tiles', taken', index, c)
  {
    if c != [] {
      SClassFits(|c|);
      assert SameBlock(data, data', index - 1, SClassSize(tiles[index - 1]));
    }
  }

  lemma ListBlock(data: seq<Word>, tiles: map<nat, nat>, taken: set<nat>, index: nat, c: seq<Word>)
    requires ListAt(data, tiles, taken, index, c)
    ensures BlockOf(index) <= taken && (index > 0 <==> c != [])
  {
  }

  lemma OtherIndex(i: nat, j: nat, X: set<nat>)
    requires BlockOf(i) <= X && BlockOf(j) !! X
    ensures i > 0 ==> i != j
  {
    if i > 0 { assert i - 1 in BlockOf(i); }
  }

  class ListPool {
    var data: seq<Word>
    var free: seq<nat>
    /** Blocks of the array, and the class of each. */
    ghost var tiles: map<nat, nat>
    /** The free list of each class. */
    ghost var chains: seq<seq<nat>>
    ghost var taken: set<nat>
    /** The lists that live in the pool, and their elements. */
    ghost var lists: map<ListHandle, seq<Word>>

    ghost predicate Blocks()
      reads this
    {
      BlocksOk(data, free, tiles, chains, taken)
    }

    ghost predicate Held(h: ListHandle)
      requires h in lists
      reads this, h
    {
      ListAt(data, tiles, taken, h.index, lists[h])
    }

    ghost predicate Owned(s: nat)
      reads this`lists, lists.Keys
    {
      exists h :: h in lists && h.index == s + 1
    }

    /** Every list has its elements, no two lists share a block, and every taken block belongs to a list. */
    ghost predicate Valid()
      reads this, lists.Keys
    {
      && Blocks()
      && (forall h :: h in lists ==> Held(h))
      && (forall h, g :: h in lists && g in lists && h != g && h.index > 0 ==> h.index != g.index)
      && (forall s :: s in taken ==> Owned(s))
    }

    constructor ()
      ensures Valid() && lists == map[] && data == []
    {
      data, free := [], [];
      tiles, chains, taken, lists := map[], [], {}, map[];
    }

    /** Forget all lists. */
    method Clear()
      modifies this
      ensures Valid() && lists == map[]
    {
      data, free := [], [];
      tiles, chains, taken, lists := map[], [], {}, map[];
    }

    /** The length field of a list, if there is one. */
    function LenOf(index: nat): Option<nat>
      reads this
    {
      if 0 < index <= |data| then Some(data[index - 1]) else None
    }

    /** Take a block from its free list, or append one; only an appended one is filled with reserved values. */
    method Alloc(sclass: nat) returns (block: nat)
      requires Blocks()
      modifies this`data, this`free, this`tiles, this`chains, this`taken
      ensures Blocks() && block !in old(taken) && block in taken && block in tiles && tiles[block] == sclass
      ensures Moved(old(data), old(tiles), old(taken), data, tiles, taken, {}, {block})
      ensures block + SClassSize(sclass) <= |data|
      ensures (forall i :: block <= i < block + SClassSize(sclass) ==> data[i] == RESERVED) <==> old(sclass >= |free| || free[sclass] == 0)
      ensures IsNext(old(data), old(free), sclass, 0, data[block..block + SClassSize(sclass)])
    {
      hide BlocksOk;
      HeadOk(data, free, tiles, chains, taken, sclass);
      if sclass < |free| && free[sclass] > 0 {
        PopOk(data, free, tiles, chains, taken, sclass);
        var head := free[sclass];
        free := free[sclass := data[head]];
        block := head - 1;
        chains := chains[sclass := chains[sclass][1..]];
      } else {
        var offset := |data|;
        GrowOk(data, free, tiles, chains, taken, sclass, seq(SClassSize(sclass), _ => RESERVED));
        data := data + seq(SClassSize(sclass), _ => RESERVED);
        tiles := tiles[offset := sclass];
        block := offset;
      }
      taken := taken + {block};
      TakenSize(data, free, tiles, chains, taken, block);
    }

    /** A block that is freed and taken again is not filled with reserved values. */
    method Retake(block: nat, sclass: nat) returns (again: nat)
      requires Blocks() && block in taken && tiles[block] == sclass
      modifies this`data, this`free, this`tiles, this`chains, this`taken
      ensures Blocks() && again + SClassSize(sclass) <= |data| && exists i :: again <= i < again + SClassSize(sclass) && data[i] != RESERVED
    {
      hide BlocksOk, Moved, SClassSize;
      Free(block, sclass);
      again := Alloc(sclass);
    }

    /** Put a block on the free list of its class. */
    method Free(block: nat, sclass: nat)
      requires Blocks() && block in taken && tiles[block] == sclass
      modifies this`data, this`free, this`chains, this`taken
      ensures Blocks() && Moved(old(data), tiles, old(taken), data, tiles, taken, {block}, {})
      ensures sclass < |free| && free[sclass] == block + 1
    {
      if |free| <= sclass {
        WidenOk(data, free, tiles, chains, taken, sclass + 1 - |free|);
        chains := chains + seq(sclass + 1 - |free|, _ => []);
        free := free + seq(sclass + 1 - |free|, _ => 0);
      }
      PushOk(data, free, tiles, chains, taken, sclass, block);
      data := data[block := 0];
      data := data[block + 1 := free[sclass]];
      chains := chains[sclass := [block] + chains[sclass]];
      free := free[sclass := block + 1];
      taken := taken - {block};
    }

    /** Write inside a taken block. */
    method Write(ghost block: nat, at: nat, s: seq<Word>)
      requires Blocks() && block in taken && block <= at && at + |s| <= block + SClassSize(tiles[block])
      modifies this`data
      ensures Blocks() && at + |s| <= |old(data)| && data == Overwrite(old(data), at, s)
      ensures Moved(old(data), tiles, taken, data, tiles, taken, {block}, {block})
    {
      ghost var data0 := data;
      assert block + SClassSize(tiles[block]) <= |data|;
      data := Overwrite(data, at, s);
      WriteOk(data0, data, free, tiles, chains, taken, block);
    }

    /** Move the first `n` words of a block to a block of another class. */
    method Realloc(block: nat, fromSclass: nat, toSclass: nat, n: nat) returns (newBlock: nat)
      requires Blocks() && block in taken && tiles[block] == fromSclass && n <= SClassSize(fromSclass) && n <= SClassSize(toSclass)
      modifies this`data, this`free, this`tiles, this`chains, this`taken
      ensures Blocks() && newBlock !in old(taken) && newBlock in taken && newBlock in tiles && tiles[newBlock] == toSclass
      ensures block + n <= |old(data)| && newBlock + SClassSize(toSclass) <= |data|
      ensures data[newBlock..newBlock + n] == old(data)[block..block + n]
      ensures Moved(old(data), old(tiles), old(taken), data, tiles, taken, {block}, {newBlock})
      ensures IsNext(old(data), old(free), toSclass, n, data[newBlock + n..newBlock + SClassSize(toSclass)])
    {
      hide BlocksOk, Moved, SameBlock, SClassSize, Overwrite, IsNext;
      ghost var data0, tiles0, taken0 := data, tiles, taken;
      TakenSize(data, free, tiles, chains, taken, block);
      newBlock := Alloc(toSclass);
      MovedBlock(data0, tiles0, taken0, data, tiles, taken, {}, {newBlock}, block);
      ghost var data1, tiles1, taken1 := data, tiles, taken;
      var same: set<nat> := {newBlock};
      assert {} + (same - same) == {} && (same - same) + same == same;
      NextPart(data0, old(free), toSclass, 0, data1[newBlock..newBlock + SClassSize(toSclass)], n, SClassSize(toSclass));
      SliceOfSlice(data1, newBlock, newBlock + SClassSize(toSclass), n, SClassSize(toSclass));
      if n > 0 {
        Write(newBlock, newBlock, data[block..block + n]);
        OverwriteSlice(data1, newBlock, data1[block..block + n]);
        OverwriteRest(data1, newBlock, data1[block..block + n], newBlock + SClassSize(toSclass));
        SliceSame(data0, data1, block, SClassSize(fromSclass), n);
        MovedTwice(data0, tiles0, taken0, data1, tiles1, taken1, data, tiles, taken, {}, {newBlock}, {newBlock}, {newBlock});
        MovedBlock(data1, tiles1, taken1, data, tiles, taken, {newBlock}, {newBlock}, block);
      }
      ghost var data2, tiles2, taken2 := data, tiles, taken;
      Free(block, fromSclass);
      MovedBlock(data2, tiles2, taken2, data, tiles, taken, {block}, {}, newBlock);
      SliceSame(data2, data, newBlock, SClassSize(toSclass), n);
      SliceTailSame(data2, data, newBlock, SClassSize(toSclass), n);
      MovedTwice(data0, tiles0, taken0, data2, tiles2, taken2, data, tiles, taken, {}, same, {block}, {});
      assert {} + ({block} - same) == {block} && (same - {block}) + {} == same;
    }

    /** The pool differs from `o` by blocks `B` in place of the blocks `o.A`. */
    ghost predicate MovedFrom(o: Origin, B: set<nat>)
      reads this
    {
      Moved(o.data, o.tiles, o.taken, data, tiles, taken, o.A, B)
    }

    /** The lists other than `h` as they were in `o`. */
    ghost predicate Rest(h: ListHandle, o: Origin)
      reads this`lists, lists.Keys - {h}
    {
      && (forall g :: g in lists && g != h ==> ListAt(o.data, o.tiles, o.taken, g.index, lists[g]) && BlockOf(g.index) !! o.A)
      && (forall g, g' :: g in lists && g' in lists && g != h && g' != h && g != g' && g.index > 0 ==> g.index != g'.index)
      && (forall s :: s in o.taken - o.A ==> OwnedBut(h, s))
    }

    /** Write inside a block that is being changed. */
    method Store(block: nat, at: nat, s: seq<Word>, ghost o: Origin)
      requires Blocks() && block in taken && block <= at && at + |s| <= block + SClassSize(tiles[block]) && MovedFrom(o, {block})
      modifies this`data
      ensures Blocks() && at + |s| <= |old(data)| && data == Overwrite(old(data), at, s) && MovedFrom(o, {block})
    {
      hide BlocksOk, Moved;
      ghost var data1 := data;
      Write(block, at, s);
      MovedTwice(o.data, o.tiles, o.taken, data1, tiles, taken, data, tiles, taken, o.A, {block}, {block}, {block});
      var same: set<nat> := {block};
      assert o.A + (same - same) == o.A && (same - same) + same == same;
    }

    /** The list of `h` has become `c`. */
    ghost method Commit(h: ListHandle, c: seq<Word>, o: Origin)
      requires Blocks() && ListAt(data, tiles, taken, h.index, c)
      requires MovedFrom(o, BlockOf(h.index)) && Rest(h, o)
      modifies this`lists
      ensures Valid() && lists == old(lists)[h := c]
    {
      hide BlocksOk, ListAt, SameBlocks, Extends;
      forall g | g in lists && g != h ensures ListAt(data, tiles, taken, g.index, lists[g]) && (g.index > 0 ==> g.index != h.index) {
        ListStays(o.data, o.tiles, o.taken, data, tiles, taken, o.A, BlockOf(h.index), g.index, lists[g]);
        ListBlock(o.data, o.tiles, o.taken, g.index, lists[g]);
        OtherIndex(g.index, h.index, o.taken - o.A);
      }
      ghost var lists0 := lists;
      lists := lists[h := c];
      forall g | g in lists ensures Held(g) {
        if g != h { assert g in lists0 && lists[g] == lists0[g]; }
      }
      AllOwned(h, c, o, lists0);
    }

    /** Every block that is taken belongs to a list. */
    lemma AllOwned(h: ListHandle, c: seq<Word>, o: Origin, lists0: map<ListHandle, seq<Word>>)
      requires lists == lists0[h := c] && MovedFrom(o, BlockOf(h.index))
      requires forall s | s in o.taken - o.A :: exists g :: g in lists0 && g != h && g.index == s + 1
      ensures forall s | s in taken :: Owned(s)
    {
      forall s | s in taken ensures Owned(s) {
        if s in BlockOf(h.index) {
          assert h in lists && h.index == s + 1;
        } else {
          assert s in o.taken - o.A;
          var g :| g in lists0 && g != h && g.index == s + 1;
          assert g in lists && g.index == s + 1;
        }
      }
    }

    /** Before the list of `h` is changed. */
    ghost method Start(h: ListHandle) returns (o: Origin)
      requires Valid() && h in lists
      ensures o == Origin(data, tiles, taken, BlockOf(h.index)) && Rest(h, o) && MovedFrom(o, BlockOf(h.index))
      ensures h.index == 0 <==> lists[h] == []
      ensures LenOf(h.index) == if lists[h] == [] then None else Some(|lists[h]|)
      ensures h.index > 0 ==> Stored(data, tiles, taken, h.index - 1, lists[h])
    {
      hide BlocksOk, ListAt, Moved, Stored;
      o := Origin(data, tiles, taken, BlockOf(h.index));
      assert Held(h);
      HeadOk(data, free, tiles, chains, taken, 0);
      ListBlock(data, tiles, taken, h.index, lists[h]);
      if h.index > 0 { AtStored(data, tiles, taken, h.index, lists[h]); }
      MovedNot(data, tiles, taken, o.A);
      forall s | s in o.taken - o.A ensures OwnedBut(h, s) {
        assert Owned(s);
        var g :| g in lists && g.index == s + 1;
        assert g != h && g.index == s + 1;
      }
      forall g | g in lists && g != h ensures ListAt(o.data, o.tiles, o.taken, g.index, lists[g]) && BlockOf(g.index) !! o.A {
        assert Held(g);
      }
    }

    /** Before a list is created. */
    ghost method StartNew(h: ListHandle) returns (o: Origin)
      requires Valid() && h !in lists
      ensures o == Origin(data, tiles, taken, {}) && Rest(h, o)
    {
      o := Origin(data, tiles, taken, {});
      forall s | s in o.taken - o.A ensures OwnedBut(h, s) {
        assert Owned(s);
        var g :| g in lists && g.index == s + 1;
        assert g != h && g.index == s + 1;
      }
      forall g | g in lists && g != h ensures ListAt(o.data, o.tiles, o.taken, g.index, lists[g]) && BlockOf(g.index) !! o.A {
        assert Held(g);
      }
    }

    ghost predicate OwnedBut(h: ListHandle, s: nat)
      reads this`lists, lists.Keys - {h}
    {
      exists g :: g in lists && g != h && g.index == s + 1
    }
  }

  lemma EmptyAt(data: seq<Word>, tiles: map<nat, nat>, taken: set<nat>)
    ensures ListAt(data, tiles, taken, 0, [])
  {
  }

  lemma AtStored(data: seq<Word>, tiles: map<nat, nat>, taken: set<nat>, index: nat, c: seq<Word>)
    requires ListAt(data, tiles, taken, index, c) && index > 0
    ensures Stored(data, tiles, taken, index - 1, c) && index <= |data| && data[index - 1] == |c|
  {
  }

  lemma MovedNot(data: seq<Word>, tiles: map<nat, nat>, taken: set<nat>, A: set<nat>)
    requires SameBlocks(data, data, tiles, taken) && A <= taken
    ensures Moved(data, tiles, taken, data, tiles, taken, A, A)
  {
  }

  /** The head of a free list says whether there is a block on it. */
  lemma HeadOk(data: seq<Word>, free: seq<nat>, tiles: map<nat, nat>, chains: seq<seq<nat>>, taken: set<nat>, c: nat)
    requires BlocksOk(data, free, tiles, chains, taken)
    ensures |chains| == |free| && taken <= tiles.Keys && |data| !in taken
    ensures SameBlocks(data, data, tiles, taken)
    ensures c < |free| ==> (free[c] > 0 <==> chains[c] != [])
  {
    assert c < |free| ==> ChainOk(data, tiles, chains[c], free[c], c);
  }

  lemma TakenSize(data: seq<Word>, free: seq<nat>, tiles: map<nat, nat>, chains: seq<seq<nat>>, taken: set<nat>, b: nat)
    requires BlocksOk(data, free, tiles, chains, taken) && b in taken
    ensures b in tiles && b + SClassSize(tiles[b]) <= |data|
  {
  }

  lemma OverwriteSlice(data: seq<Word>, at: nat, s: seq<Word>)
    requires at + |s| <= |data|
    ensures Overwrite(data, at, s)[at..at + |s|] == s
  {
  }

  lemma SliceSame(data: seq<Word>, data': seq<Word>, b: nat, size: nat, n: nat)
    requires SameBlock(data, data', b, size) && n <= size
    ensures b + n <= |data| && b + n <= |data'| && data'[b..b + n] == data[b..b + n]
  {
  }

  lemma OverwriteRest(data: seq<Word>, at: nat, s: seq<Word>, end: nat)
    requires at + |s| <= end <= |data|
    ensures Overwrite(data, at, s)[at + |s|..end] == data[at + |s|..end]
  {
  }

  lemma SliceTailSame(data: seq<Word>, data': seq<Word>, b: nat, size: nat, n: nat)
    requires SameBlock(data, data', b, size) && n <= size
    ensures b + size <= |data| && b + size <= |data'| && data'[b + n..b + size] == data[b + n..b + size]
  {
  }

  /** What a move leaves of a block that it does not touch. */
  lemma MovedBlock(data: seq<Word>, tiles: map<nat, nat>, taken: set<nat>, data': seq<Word>, tiles': map<nat,
                   nat>, taken': set<nat>, A: set<nat>, B: set<nat>, b: nat)
    requires Moved(data, tiles, taken, data', tiles', taken', A, B)
    requires b in taken && b in tiles && b !in A
    ensures b in taken' && b in tiles' && tiles'[b] == tiles[b]
    ensures SameBlock(data, data', b, SClassSize(tiles[b]))
  {
  }

  /** `Stored` from its parts. */
  lemma StoredAt(data: seq<Word>, tiles: map<nat, nat>, taken: set<nat>, b: nat, c: seq<Word>)
    requires Stored(data, tiles, taken, b, c) && c != []
    ensures ListAt(data, tiles, taken, b + 1, c)
  {
  }

  ghost function Updated(c: seq<Word>, i: nat, x: Word): seq<Word>
    requires i < |c|
  {
    c[i := x]
  }

  lemma GapFilled(d: seq<Word>, c: seq<Word>, at: nat, x: Word)
    requires at <= |c| && |d| == |c| + 1
    requires (forall k :: 0 <= k < at ==> d[k] == c[k]) && (forall k :: at < k < |d| ==> d[k] == c[k - 1])
    ensures Updated(d, at, x) == WithInserted(c, at, x)
  {
  }

  lemma Behind(c: seq<Word>, at: nat, x: Word)
    requires at > |c|
    ensures WithInserted(c, at, x) == c + [x]
  {
  }

  ghost function WithInserted(c: seq<Word>, at: nat, x: Word): seq<Word> {
    if at <= |c| then InsertAt(c, at, x) else c + [x]
  }

  /** `c` without the element at `at`, whose place the last one takes. */
  ghost function SwapOut(c: seq<Word>, at: nat): seq<Word>
    requires at < |c|
  {
    seq(|c| - 1, k requires 0 <= k < |c| - 1 => if k == at then c[|c| - 1] else c[k])
  }

  /** The words of block `b` begin with those of a list with the elements `c`. */
  ghost predicate Words(data: seq<Word>, b: nat, c: seq<Word>) {
    b + 1 + |c| <= |data| && forall i :: 0 <= i < |c| ==> data[b + 1 + i] == c[i]
  }

  lemma StoredWords(data: seq<Word>, tiles: map<nat, nat>, taken: set<nat>, b: nat, c: seq<Word>)
    requires Stored(data, tiles, taken, b, c)
    ensures Words(data, b, c) && b in taken && b in tiles && tiles[b] == SClassForLength(|c|) && data[b] == |c|
    ensures 1 + |c| <= SClassSize(tiles[b])
  {
    forall i | 0 <= i < |c| ensures data[b + 1 + i] == c[i] {
      assert data[b + 1..b + 1 + |c|][i] == c[i];
    }
  }

  lemma WordsStored(data: seq<Word>, free: seq<nat>, tiles: map<nat, nat>, chains: seq<seq<nat>>, taken: set<nat>, b: nat, c: seq<Word>)
    requires BlocksOk(data, free, tiles, chains, taken) && b in taken && Words(data, b, c) && data[b] == |c|
    requires b in tiles && tiles[b] == SClassForLength(|c|)
    ensures Stored(data, tiles, taken, b, c)
  {
    SClassFits(|c|);
    assert data[b + 1..b + 1 + |c|] == c;
  }

  lemma WordsMoved(data: seq<Word>, b: nat, data': seq<Word>, b': nat, c: seq<Word>, n: nat)
    requires Words(data, b, c) && n == |c| + 1 && b + n <= |data| && b' + n <= |data'| && data'[b'..b' + n] == data[b..b + n]
    ensures Words(data', b', c)
  {
    forall i | 0 <= i < |c| ensures data'[b' + 1 + i] == c[i] {
      assert data'[b' + 1 + i] == data'[b'..b' + n][i + 1] == data[b..b + n][i + 1];
    }
  }

  /** Appending an element and then setting the length field. */
  lemma WordsPushed(data: seq<Word>, b: nat, c: seq<Word>, x: Word)
    requires Words(data, b, c) && b + 2 + |c| <= |data|
    ensures var data' := Overwrite(Overwrite(data, b + 1 + |c|, [x]), b, [|c| + 1]);
      Words(data', b, c + [x]) && data'[b] == |c| + 1
  {
  }

  class ListHandle {
    var index: nat

    /** An empty list. */
    constructor ()
      ensures index == 0
    {
      index := 0;
    }

    ghost predicate In(pool: ListPool)
      reads pool, pool.lists.Keys
    {
      pool.Valid() && this in pool.lists
    }

    /** An empty list becomes known to the pool. */
    ghost method Join(pool: ListPool)
      requires pool.Valid() && this !in pool.lists && index == 0
      modifies pool`lists
      ensures In(pool) && pool.lists == old(pool.lists)[this := []]
    {
      var o := pool.StartNew(this);
      HeadOk(pool.data, pool.free, pool.tiles, pool.chains, pool.taken, 0);
      MovedNot(pool.data, pool.tiles, pool.taken, {});
      pool.Commit(this, [], o);
    }

    predicate IsEmpty()
      reads this
    {
      index == 0
    }

    function Len(pool: ListPool): (r: nat)
      requires In(pool)
      reads this, pool, pool.lists.Keys
      ensures r == |pool.lists[this]|
    {
      hide ListPool.Valid;
      KnownLength(pool);
      match pool.LenOf(index) case None => 0 case Some(n) => n
    }

    function Get(i: nat, pool: ListPool): (r: Option<Word>)
      requires In(pool)
      reads this, pool, pool.lists.Keys
      ensures r == if i < |pool.lists[this]| then Some(pool.lists[this][i]) else None
    {
      var s := AsSlice(pool);
      if i < |s| then Some(s[i]) else None
    }

    function First(pool: ListPool): (r: Option<Word>)
      requires In(pool)
      reads this, pool, pool.lists.Keys
      ensures r == if pool.lists[this] == [] then None else Some(pool.lists[this][0])
    {
      hide ListPool.Valid;
      Elements(pool);
      KnownLength(pool);
      if index == 0 then None else Some(pool.data[index])
    }

    /** The list, which is being changed since `o`, will be stored in `block`. */
    ghost predicate Busy(pool: ListPool, o: Origin, block: nat)
      reads this, pool, pool.lists.Keys
    {
      && pool.Blocks() && this in pool.lists && pool.Rest(this, o) && pool.MovedFrom(o, {block})
      && index == block + 1 && block in pool.taken && block in pool.tiles && block + SClassSize(pool.tiles[block]) <= |pool.data|
    }

    /** The block holds the elements `c`: the change is complete. */
    ghost method Finish(pool: ListPool, o: Origin, block: nat, c: seq<Word>)
      requires Busy(pool, o, block) && c != [] && Words(pool.data, block, c) && pool.data[block] == |c|
      requires pool.tiles[block] == SClassForLength(|c|)
      modifies pool`lists
      ensures In(pool) && pool.lists == old(pool.lists)[this := c]
    {
      hide BlocksOk, Moved, ListPool.Rest, Words;
      WordsStored(pool.data, pool.free, pool.tiles, pool.chains, pool.taken, block, c);
      StoredAt(pool.data, pool.tiles, pool.taken, block, c);
      pool.Commit(this, c, o);
    }

    /** Find a block for the first elements of the list. */
    method NewBlock(sclass: nat, pool: ListPool) returns (block: nat, ghost o: Origin)
      requires In(pool) && index == 0
      modifies this, pool
      ensures Busy(pool, o, block) && pool.tiles[block] == sclass && pool.lists == old(pool.lists) && pool.lists[this] == []
      ensures IsNext(old(pool.data), old(pool.free), sclass, 0, pool.data[block..block + SClassSize(sclass)])
    {
      hide BlocksOk, Moved, ListAt, ListPool.Rest, SClassForLength, SClassSize, IsNext;
      o := pool.Start(this);
      block := pool.Alloc(sclass);
      index := block + 1;
    }

    /** Change the class of the block of the list, keeping its elements. */
    method MoveBlock(toSclass: nat, len: nat, n: nat, pool: ListPool) returns (block: nat, ghost o: Origin)
      requires In(pool) && index > 0 && len == |pool.lists[this]| && n <= len + 1 && n <= SClassSize(toSclass)
      modifies this, pool
      ensures Busy(pool, o, block) && pool.tiles[block] == toSclass && pool.lists == old(pool.lists)
      ensures n > 0 ==> Words(pool.data, block, pool.lists[this][..n - 1])
      ensures IsNext(old(pool.data), old(pool.free), toSclass, n, pool.data[block + n..block + SClassSize(toSclass)])
    {
      hide BlocksOk, Moved, ListAt, Words, ListPool.Rest, SClassForLength, SClassSize, IsNext;
      o := pool.Start(this);
      ghost var data0, b0, c := pool.data, index - 1, pool.lists[this];
      StoredWords(data0, pool.tiles, pool.taken, b0, c);
      block := pool.Realloc(index - 1, SClassForLength(len), toSclass, n);
      if n > 0 {
        WordsFront(data0, b0, c, n - 1);
        WordsMoved(data0, b0, pool.data, block, c[..n - 1], n);
      }
      index := block + 1;
    }

    /** Leave the list in its block. */
    ghost method KeepBlock(pool: ListPool) returns (block: nat, o: Origin)
      requires In(pool) && index > 0
      ensures Busy(pool, o, block) && pool.tiles[block] == SClassForLength(|pool.lists[this]|) && Words(pool.data, block, pool.lists[this])
      ensures pool.data[block] == |pool.lists[this]|
    {
      hide BlocksOk, Moved, ListAt, Words, ListPool.Rest, SClassForLength, SClassSize;
      o := pool.Start(this);
      block := index - 1;
      StoredWords(pool.data, pool.tiles, pool.taken, block, pool.lists[this]);
    }

    /** Append an element; the index of the new element is returned. */
    method Push(element: Word, pool: ListPool) returns (at: nat)
      requires In(pool)
      modifies this, pool
      ensures In(pool) && pool.lists == old(pool.lists)[this := old(pool.lists[this]) + [element]]
      ensures at == |old(pool.lists[this])|
    {
      hide BlocksOk, Moved, Words, ListPool.Rest, ListPool.Valid, SClassForLength, SClassSize;
      ghost var c := pool.lists[this];
      KnownLength(pool);
      var len := pool.LenOf(index);
      if len.None? {
        PushFirst(element, pool);
        assert c + [element] == [element];
        at := 0;
      } else {
        PushMore(element, len.value, pool);
        at := len.value;
      }
    }

    method PushFirst(element: Word, pool: ListPool)
      requires In(pool) && index == 0
      modifies this, pool
      ensures In(pool) && pool.lists == old(pool.lists)[this := [element]]
    {
      hide BlocksOk, Moved, ListPool.Rest, SClassForLength;
      SClassFits(1);
      var block;
      ghost var o;
      block, o := NewBlock(SClassForLength(1), pool);
      pool.Store(block, block, [1], o);
      pool.Store(block, block + 1, [element], o);
      Finish(pool, o, block, [element]);
    }

    method PushMore(element: Word, len: nat, pool: ListPool)
      requires In(pool) && index > 0 && len == |pool.lists[this]|
      modifies this, pool
      ensures In(pool) && pool.lists == old(pool.lists)[this := old(pool.lists[this]) + [element]]
    {
      hide BlocksOk, Moved, Words, ListPool.Rest, ListPool.Valid, SClassForLength, SClassSize, Overwrite;
      ghost var c := pool.lists[this];
      SClassFits(len);
      SClassFits(len + 1);
      KnownLength(pool);
      NextClass(len);
      var newLen := len + 1;
      var block: nat;
      ghost var o;
      if IsSClassMinLength(newLen) {
        block, o := MoveBlock(SClassForLength(len) + 1, len, len + 1, pool);
        assert c[..len] == c;
      } else {
        block := index - 1;
        ghost var b;
        b, o := KeepBlock(pool);
      }
      Append(element, block, newLen, pool, o, c);
    }

    /** Write a last element and the new length. */
    method Append(element: Word, block: nat, newLen: nat, pool: ListPool, ghost o: Origin, ghost c: seq<Word>)
      requires Busy(pool, o, block) && newLen == |c| + 1 && pool.tiles[block] == SClassForLength(newLen) && Words(pool.data, block, c)
      modifies pool
      ensures In(pool) && pool.lists == old(pool.lists)[this := c + [element]]
    {
      hide BlocksOk, Moved, Words, ListPool.Rest, ListPool.Valid, SClassForLength, SClassSize, Overwrite;
      SClassFits(newLen);
      WordsPushed(pool.data, block, c, element);
      pool.Store(block, block + newLen, [element], o);
      pool.Store(block, block, [newLen], o);
      Finish(pool, o, block, c + [element]);
    }

    /** Make room for `count` more elements, which are left as they happen to be in memory: reserved values in some cases only. */
    method Grow(count: nat, pool: ListPool) returns (n: nat)
      requires In(pool)
      modifies this, pool
      ensures In(pool) && n == |old(pool.lists[this])| + count
      ensures this in pool.lists && pool.lists == old(pool.lists)[this := pool.lists[this]]
      ensures |pool.lists[this]| == n && pool.lists[this][..n - count] == old(pool.lists[this])
      ensures old(pool.lists[this]) != [] && SClassForLength(n) == SClassForLength(n - count) ==>
        index == old(index) && InPlace(old(pool.lists[this]), old(pool.data), index, pool.lists[this])
      ensures (forall i :: n - count <= i < n ==> pool.lists[this][i] == RESERVED)
        <==> ReservedAhead(old(pool.data), old(pool.free), old(index), n - count, n)
    {
      hide BlocksOk, Moved, Words, ListPool.Rest, ListPool.Valid, SClassForLength, SClassSize, ReservedAhead, AllReserved, InPlace;
      ghost var c := pool.lists[this];
      KnownLength(pool);
      var len := pool.LenOf(index);
      if len.None? && count == 0 {
        assert pool.lists == pool.lists[this := []];
        NothingAhead(pool.data, pool.free, index);
        return 0;
      }
      n := if len.None? then count else len.value + count;
      var block;
      ghost var o, junk;
      block, o, junk := FindRoom(len, n, pool);
      AdmitJunk(block, n, pool, o, c, junk);
      TailReserved(c, junk);
    }

    /** Write the new length, so that the words behind the list become elements. */
    method AdmitJunk(block: nat, n: nat, pool: ListPool, ghost o: Origin, ghost c: seq<Word>, ghost junk: seq<Word>)
      requires Busy(pool, o, block) && 0 < n == |c| + |junk| && pool.tiles[block] == SClassForLength(n) && Words(pool.data, block, c)
      requires block + 1 + n <= |pool.data| && junk == pool.data[block + 1 + |c|..block + 1 + n]
      modifies pool
      ensures In(pool) && pool.lists == old(pool.lists)[this := c + junk]
    {
      hide BlocksOk, Moved, Words, ListPool.Rest, ListPool.Valid, SClassForLength, SClassSize, Overwrite;
      SClassFits(n);
      WordsAndMore(pool.data, block, c, junk);
      pool.Store(block, block, [n], o);
      Finish(pool, o, block, c + junk);
    }

    /** Find a block for `n` elements, where the list is kept; `junk` is what follows it there. */
    method FindRoom(len: Option<nat>, n: nat, pool: ListPool) returns (block: nat, ghost o: Origin, ghost junk: seq<Word>)
      requires In(pool) && len == pool.LenOf(index) && 0 < n && |pool.lists[this]| <= n
      modifies this, pool
      ensures Busy(pool, o, block) && pool.tiles[block] == SClassForLength(n) && pool.lists == old(pool.lists)
      ensures Words(pool.data, block, pool.lists[this])
      ensures block + 1 + n <= |pool.data| && junk == pool.data[block + 1 + |pool.lists[this]|..block + 1 + n]
      ensures old(pool.lists[this]) != [] && SClassForLength(n) == SClassForLength(|old(pool.lists[this])|) ==>
        index == old(index) && InPlace(old(pool.lists[this]), old(pool.data), index, pool.lists[this] + junk)
      ensures AllReserved(junk)
        <==> ReservedAhead(old(pool.data), old(pool.free), old(index), |old(pool.lists[this])|, n)
    {
      hide BlocksOk, Moved, Words, ListPool.Rest, ListPool.Valid, SClassForLength, SClassSize, Overwrite, IsNext, ReservedAhead;
      ghost var c, data0, free0, index0 := pool.lists[this], pool.data, pool.free, index;
      KnownLength(pool);
      SClassFits(n);
      if len.None? {
        block, o := NewBlock(SClassForLength(n), pool);
        NoWords(pool.data, block, c);
      } else {
        block, o := Resize(len.value, n, pool);
        assert c[..len.value] == c;
      }
      junk := pool.data[block + 1 + |c|..block + 1 + n];
      if c != [] && SClassForLength(n) == SClassForLength(|c|) {
        HereReserved(data0, free0, index0, |c|, n, junk);
      } else {
        JunkNext(data0, free0, pool.data, block, |c|, n, if c == [] then 0 else |c| + 1, junk);
        NextReserved(data0, free0, index0, |c|, n, junk);
      }
    }

    /** Growing a list by one brings back the element that was removed, unless the list was moved to a smaller block. */
    method Regrow(pool: ListPool)
      requires In(pool) && |pool.lists[this]| > 1 && !IsSClassMinLength(|pool.lists[this]|)
      modifies this, pool
      ensures In(pool) && pool.lists == old(pool.lists)
    {
      hide ListPool.Valid, SClassForLength;
      ghost var c := pool.lists[this];
      KnownLength(pool);
      var len := Len(pool);
      Elements(pool);
      NextClass(len - 1);
      RemoveLast(len, pool);
      var n := Grow(1, pool);
      assert pool.lists[this] == c[..len - 1] + [c[len - 1]] == c;
      assert pool.lists == old(pool.lists);
    }

    /** Find a block of the class for `newLen` elements, where the common elements are kept. */
    method Resize(len: nat, newLen: nat, pool: ListPool) returns (block: nat, ghost o: Origin)
      requires In(pool) && index > 0 && len == |pool.lists[this]| && newLen > 0
      modifies this, pool
      ensures Busy(pool, o, block) && pool.tiles[block] == SClassForLength(newLen) && pool.lists == old(pool.lists)
      ensures Words(pool.data, block, pool.lists[this][..if len < newLen then len else newLen])
      ensures SClassForLength(newLen) == SClassForLength(len) ==> index == old(index) && pool.data == old(pool.data)
      ensures SClassForLength(newLen) != SClassForLength(len) ==>
        var n := (if len < newLen then len else newLen) + 1;
        && n <= SClassSize(SClassForLength(newLen))
        && IsNext(old(pool.data), old(pool.free), SClassForLength(newLen), n, pool.data[block + n..block + SClassSize(SClassForLength(newLen))])
    {
      hide BlocksOk, Moved, Words, ListPool.Rest, ListPool.Valid, SClassForLength, SClassSize, IsNext;
      SClassFits(len);
      SClassFits(newLen);
      if SClassForLength(newLen) != SClassForLength(len) {
        block, o := MoveBlock(SClassForLength(newLen), len, (if len < newLen then len else newLen) + 1, pool);
      } else {
        block := index - 1;
        ghost var b;
        b, o := KeepBlock(pool);
        WordsFront(pool.data, block, pool.lists[this], if len < newLen then len else newLen);
      }
    }

    /** The element at position `i`. */
    function At(i: nat, pool: ListPool): (r: Word)
      requires In(pool) && i < |pool.lists[this]|
      reads this, pool, pool.lists.Keys
      ensures r == pool.lists[this][i]
    {
      hide ListPool.Valid;
      Elements(pool);
      pool.data[index + i]
    }

    /** Overwrite the element at position `i`. */
    method Set(i: nat, x: Word, pool: ListPool)
      requires In(pool) && i < |pool.lists[this]|
      modifies pool
      ensures In(pool) && pool.lists == old(pool.lists)[this := Updated(old(pool.lists[this]), i, x)]
    {
      hide BlocksOk, Moved, Words, ListPool.Rest, ListPool.Valid, SClassForLength, SClassSize, Overwrite, ListAt, Stored;
      KnownLength(pool);
      ghost var c := pool.lists[this];
      ghost var b, o := KeepBlock(pool);
      SetIn(i, x, index - 1, pool, o, c);
    }

    method SetIn(i: nat, x: Word, block: nat, pool: ListPool, ghost o: Origin, ghost c: seq<Word>)
      requires Busy(pool, o, block) && i < |c| && pool.tiles[block] == SClassForLength(|c|)
      requires Words(pool.data, block, c) && pool.data[block] == |c|
      modifies pool
      ensures In(pool) && pool.lists == old(pool.lists)[this := Updated(c, i, x)]
    {
      hide BlocksOk, Moved, Words, ListPool.Rest, ListPool.Valid, SClassForLength, SClassSize, Overwrite;
      SClassFits(|c|);
      WordsSet(pool.data, block, c, i, x);
      pool.Store(block, index + i, [x], o);
      Finish(pool, o, block, Updated(c, i, x));
    }

    /** Put the block of the list back; the list is empty then. */
    method Clear(pool: ListPool)
      requires In(pool)
      modifies this, pool
      ensures In(pool) && pool.lists == old(pool.lists)[this := []]
    {
      hide BlocksOk, Moved, ListPool.Rest, SClassForLength, SClassSize;
      KnownLength(pool);
      var len := pool.LenOf(index);
      ghost var o := pool.Start(this);
      if len.Some? {
        StoredWords(pool.data, pool.tiles, pool.taken, index - 1, pool.lists[this]);
        pool.Free(index - 1, SClassForLength(len.value));
      }
      index := 0;
      pool.Commit(this, [], o);
    }

    /** Remove the last of the `len` elements. */
    method RemoveLast(len: nat, pool: ListPool)
      requires In(pool) && len == |pool.lists[this]| && len > 0
      modifies this, pool
      ensures In(pool) && pool.lists == old(pool.lists)[this := old(pool.lists[this])[..len - 1]]
      ensures len > 1 && !IsSClassMinLength(len) ==>
        0 < index == old(index) <= |old(pool.data)| && pool.data == Overwrite(old(pool.data), index - 1, [len - 1])
    {
      hide BlocksOk, Moved, Words, ListPool.Rest, ListPool.Valid, SClassForLength, SClassSize, Overwrite;
      ghost var c := pool.lists[this];
      KnownLength(pool);
      if len == 1 {
        Clear(pool);
        assert c[..0] == [];
        return;
      }
      NextClass(len - 1);
      SClassFits(len);
      SClassFits(len - 1);
      var block := index - 1;
      ghost var o, b;
      if IsSClassMinLength(len) {
        block, o := MoveBlock(SClassForLength(len) - 1, len, len, pool);
      } else {
        b, o := KeepBlock(pool);
        WordsFront(pool.data, block, c, len - 1);
      }
      Shorten(block, len - 1, pool, o, c[..len - 1]);
    }

    /** Write the new length. */
    method Shorten(block: nat, newLen: nat, pool: ListPool, ghost o: Origin, ghost c: seq<Word>)
      requires Busy(pool, o, block) && newLen == |c| > 0 && pool.tiles[block] == SClassForLength(newLen) && Words(pool.data, block, c)
      modifies pool
      ensures In(pool) && pool.lists == old(pool.lists)[this := c]
      ensures block < |old(pool.data)| && pool.data == Overwrite(old(pool.data), block, [newLen])
    {
      hide BlocksOk, Moved, Words, ListPool.Rest, ListPool.Valid, SClassForLength, SClassSize, Overwrite;
      WordsLength(pool.data, block, c);
      pool.Store(block, block, [newLen], o);
      Finish(pool, o, block, c);
    }

    /** Keep the first `newLen` elements. */
    method Truncate(newLen: nat, pool: ListPool)
      requires In(pool)
      modifies this, pool
      ensures In(pool)
      ensures pool.lists == old(pool.lists)[this := if newLen < |old(pool.lists[this])| then old(pool.lists[this])[..newLen] else old(pool.lists[this])]
    {
      hide BlocksOk, Moved, Words, ListPool.Rest, ListPool.Valid, SClassForLength, SClassSize, Overwrite;
      ghost var c := pool.lists[this];
      KnownLength(pool);
      if newLen == 0 {
        Clear(pool);
        assert c != [] ==> c[..0] == [];
        return;
      }
      var len := pool.LenOf(index);
      if len.None? || len.value <= newLen {
        assert pool.lists == pool.lists[this := c];
        return;
      }
      var block;
      ghost var o;
      block, o := Resize(len.value, newLen, pool);
      Shorten(block, newLen, pool, o, c[..newLen]);
    }

    /** Remove the element at position `at`. */
    method Remove(at: nat, pool: ListPool)
      requires In(pool) && at < |pool.lists[this]|
      modifies this, pool
      ensures In(pool) && pool.lists == old(pool.lists)[this := RemoveAt<Word>(old(pool.lists[this]), at)]
    {
      hide ListPool.Valid;
      ghost var c, lists0 := pool.lists[this], pool.lists;
      var len := |AsSlice(pool)|;
      ghost var d := c;
      assert lists0[this := c] == lists0;
      for i := at to len - 1
        invariant In(pool) && pool.lists == lists0[this := d] && |d| == len
        invariant forall k :: 0 <= k < at || i <= k < len ==> d[k] == c[k]
        invariant forall k :: at <= k < i ==> d[k] == c[k + 1]
      {
        assert d[i + 1] == c[i + 1];
        Set(i, At(i + 1, pool), pool);
        d := Updated(d, i, c[i + 1]);
        assert pool.lists == lists0[this := d];
      }
      assert d[..len - 1] == RemoveAt(c, at);
      RemoveLast(len, pool);
    }

    /** Remove the element at position `at` by putting the last one in its place. */
    method SwapRemove(at: nat, pool: ListPool)
      requires In(pool) && at < |pool.lists[this]|
      modifies this, pool
      ensures In(pool)
      ensures pool.lists == old(pool.lists)[this := SwapOut(old(pool.lists[this]), at)]
    {
      hide ListPool.Valid;
      ghost var c := pool.lists[this];
      var len := |AsSlice(pool)|;
      if at != len - 1 {
        var x, y := At(at, pool), At(len - 1, pool);
        Set(at, y, pool);
        Set(len - 1, x, pool);
      }
      assert pool.lists[this][..len - 1] == SwapOut(c, at);
      RemoveLast(len, pool);
    }

    /** Insert an element at position `at`; behind the end it is appended. */
    method Insert(at: nat, element: Word, pool: ListPool)
      requires In(pool)
      modifies this, pool
      ensures In(pool)
      ensures pool.lists == old(pool.lists)[this := WithInserted(old(pool.lists[this]), at, element)]
    {
      hide ListPool.Valid, Updated, WithInserted;
      ghost var c, lists0 := pool.lists[this], pool.lists;
      var pushed := Push(element, pool);
      var len := |AsSlice(pool)|;
      if at < len {
        ghost var d := MoveTail(at, len, pool, c, lists0);
        Set(at, element, pool);
        GapFilled(d, c, at, element);
      } else {
        Behind(c, at, element);
      }
    }

    /** Move the elements from position `at` on one place up; the last one is lost. */
    method MoveTail(at: nat, len: nat, pool: ListPool, ghost c: seq<Word>, ghost lists0: map<ListHandle, seq<Word>>)
      returns (ghost d: seq<Word>)
      requires In(pool) && pool.lists == lists0[this := pool.lists[this]]
      requires at < len == |pool.lists[this]| == |c| + 1 && pool.lists[this][..|c|] == c
      modifies pool
      ensures In(pool) && pool.lists == lists0[this := d] && |d| == len
      ensures forall k :: 0 <= k < at ==> d[k] == c[k]
      ensures forall k :: at < k < len ==> d[k] == c[k - 1]
    {
      hide ListPool.Valid;
      var i := len - 1;
      d := pool.lists[this];
      assert forall k :: 0 <= k < |c| ==> d[k] == d[..|c|][k];
      while i > at
        invariant at <= i < len && In(pool) && pool.lists == lists0[this := d] && |d| == len
        invariant forall k :: 0 <= k <= i && k < |c| ==> d[k] == c[k]
        invariant forall k :: i < k < len ==> d[k] == c[k - 1]
      {
        assert d[i - 1] == c[i - 1];
        Set(i, At(i - 1, pool), pool);
        d := Updated(d, i, c[i - 1]);
        assert pool.lists == lists0[this := d];
        i := i - 1;
      }
    }

    /** Grow the list by `count` elements before position `at`, which are left as they happen to be in memory. */
    method GrowAt(at: nat, count: nat, pool: ListPool)
      requires In(pool) && at <= |pool.lists[this]|
      modifies this, pool
      ensures In(pool) && pool.lists == old(pool.lists)[this := pool.lists[this]]
      ensures |pool.lists[this]| == |old(pool.lists[this])| + count
      ensures pool.lists[this][..at] == old(pool.lists[this])[..at] && pool.lists[this][at + count..] == old(pool.lists[this])[at..]
    {
      hide ListPool.Valid, InPlace, SClassForLength;
      ghost var c, lists0 := pool.lists[this], pool.lists;
      var n := Grow(count, pool);
      ghost var d := pool.lists[this];
      forall k | 0 <= k < |c| ensures d[k] == c[k] { assert d[k] == d[..n - count][k]; }
      var i := n;
      while i > at + count
        invariant at + count <= i <= n && In(pool) && pool.lists == lists0[this := d] && |d| == n
        invariant forall k :: 0 <= k < |c| && k < i ==> d[k] == c[k]
        invariant forall k :: i <= k < n ==> d[k] == c[k - count]
      {
        i := i - 1;
        Set(i, At(i - count, pool), pool);
        d := Updated(d, i, c[i - count]);
        assert pool.lists == lists0[this := d];
      }
    }

    /** Append several elements; `exact` says that their number was known in advance. */
    method Extend(elements: seq<Word>, exact: bool, pool: ListPool)
      requires In(pool)
      modifies this, pool
      ensures In(pool) && pool.lists == old(pool.lists)[this := old(pool.lists[this]) + elements]
    {
      hide ListPool.Valid, InPlace, SClassForLength;
      ghost var c, lists0 := pool.lists[this], pool.lists;
      if exact {
        var n := Grow(|elements|, pool);
        var offset := n - |elements|;
        ghost var d := pool.lists[this];
        assert forall k :: 0 <= k < |c| ==> d[k] == d[..n - |elements|][k] == c[k];
        for i := 0 to |elements|
          invariant In(pool) && pool.lists == lists0[this := d] && |d| == n
          invariant forall k :: 0 <= k < |c| ==> d[k] == c[k]
          invariant forall k :: 0 <= k < i ==> d[offset + k] == elements[k]
        {
          Set(offset + i, elements[i], pool);
          d := Updated(d, offset + i, elements[i]);
          assert pool.lists == lists0[this := d];
        }
        assert d == c + elements;
      } else {
        assert c + elements[..0] == c;
        for i := 0 to |elements|
          invariant In(pool) && pool.lists == lists0[this := c + elements[..i]]
        {
          var at := Push(elements[i], pool);
          assert c + elements[..i] + [elements[i]] == c + elements[..i + 1];
        }
        assert elements[..|elements|] == elements;
      }
    }

    /** The elements of the list. */
    function AsSlice(pool: ListPool): (r: seq<Word>)
      requires In(pool)
      reads this, pool, pool.lists.Keys
      ensures r == pool.lists[this]
    {
      hide ListPool.Valid;
      Elements(pool);
      KnownLength(pool);
      match pool.LenOf(index)
      case None => []
      case Some(len) => pool.data[index..index + len]
    }

    /** Hand the elements over to a new list; this one is empty then. */
    method Take(pool: ListPool) returns (r: ListHandle)
      requires In(pool)
      modifies this, pool
      ensures In(pool) && fresh(r) && pool.lists == old(pool.lists)[this := []][r := old(pool.lists[this])]
    {
      hide BlocksOk, ListAt;
      ghost var c := pool.lists[this];
      r := new ListHandle();
      r.index := index;
      index := 0;
      ghost var lists0 := pool.lists;
      pool.lists := pool.lists[this := []][r := c];
      forall h | h in pool.lists ensures pool.Held(h) {
        if h == this { EmptyAt(pool.data, pool.tiles, pool.taken); } else { assert old(pool.Held(if h == r then this else h)); }
      }
      forall s | s in pool.taken ensures pool.Owned(s) {
        assert old(pool.Owned(s));
        var h :| h in lists0 && old(h.index) == s + 1;
        assert (if h == this then r else h) in pool.lists;
      }
    }

    /** A new list with the given elements. */
    static method FromSlice(slice: seq<Word>, pool: ListPool) returns (r: ListHandle)
      requires pool.Valid()
      modifies pool
      ensures r.In(pool) && fresh(r) && pool.lists == old(pool.lists)[r := slice]
    {
      hide BlocksOk, Moved, Words, ListPool.Rest, ListPool.Valid, SClassForLength, SClassSize, ListAt;
      r := new ListHandle();
      r.Join(pool);
      var len := |slice|;
      if len == 0 {
        return;
      }
      var block;
      ghost var o;
      block, o := r.NewBlock(SClassForLength(len), pool);
      r.Fill(slice, block, pool, o);
    }

    /** Write the length and all elements. */
    method Fill(slice: seq<Word>, block: nat, pool: ListPool, ghost o: Origin)
      requires Busy(pool, o, block) && slice != [] && pool.tiles[block] == SClassForLength(|slice|)
      modifies pool
      ensures In(pool) && pool.lists == old(pool.lists)[this := slice]
    {
      hide BlocksOk, Moved, Words, ListPool.Rest, ListPool.Valid, SClassForLength, SClassSize, Overwrite;
      SClassFits(|slice|);
      WordsFilled(pool.data, block, slice);
      pool.Store(block, block, [|slice|], o);
      pool.Store(block, block + 1, slice, o);
      Finish(pool, o, block, slice);
    }

    /** A new list with the elements of this one. */
    method DeepClone(pool: ListPool) returns (r: ListHandle)
      requires In(pool)
      modifies pool
      ensures In(pool) && r.In(pool) && fresh(r) && pool.lists == old(pool.lists)[r := old(pool.lists[this])]
    {
      hide BlocksOk, Moved, Words, ListPool.Rest, ListPool.Valid, SClassForLength, SClassSize, ListAt;
      KnownLength(pool);
      ghost var c := pool.lists[this];
      r := new ListHandle();
      r.Join(pool);
      var len := pool.LenOf(index);
      if len.None? {
        return;
      }
      var block;
      ghost var o;
      block, o := r.NewBlock(SClassForLength(len.value), pool);
      Untouched(pool, r, o, block, c);
      r.Fill(pool.data[index..index + len.value], block, pool, o);
    }

    /** The elements are still there while another list is being changed. */
    lemma Untouched(pool: ListPool, r: ListHandle, o: Origin, block: nat, c: seq<Word>)
      requires r.Busy(pool, o, block) && this in pool.lists && this != r && pool.lists[this] == c && c != []
      ensures index + |c| <= |pool.data| && pool.data[index..index + |c|] == c
    {
      hide BlocksOk, Moved;
      ListStays(o.data, o.tiles, o.taken, pool.data, pool.tiles, pool.taken, o.A, {block}, index, c);
    }

    /** The elements are in the array. */
    lemma Elements(pool: ListPool)
      requires In(pool)
      ensures var c := pool.lists[this];
        c != [] ==> index + |c| <= |pool.data| && pool.data[index..index + |c|] == c && forall i :: 0 <= i < |c| ==> pool.data[index + i] == c[i]
    {
      hide BlocksOk;
      assert pool.Held(this);
      var c := pool.lists[this];
      forall i | 0 <= i < |c| ensures index + i < |pool.data| && pool.data[index + i] == c[i] {
        assert pool.data[index..index + |c|][i] == c[i];
      }
    }

    /** The length field is right. */
    lemma KnownLength(pool: ListPool)
      requires In(pool)
      ensures pool.LenOf(index) == if pool.lists[this] == [] then None else Some(|pool.lists[this]|)
      ensures index == 0 <==> pool.lists[this] == []
    {
      assert pool.Held(this);
    }
  }

  lemma WordsSet(data: seq<Word>, b: nat, c: seq<Word>, i: nat, x: Word)
    requires Words(data, b, c) && i < |c|
    ensures var data' := Overwrite(data, b + 1 + i, [x]); Words(data', b, c[i := x]) && data'[b] == data[b]
  {
  }

  lemma WordsFilled(data: seq<Word>, b: nat, c: seq<Word>)
    requires b + 1 + |c| <= |data|
    ensures var data' := Overwrite(Overwrite(data, b, [|c|]), b + 1, c); Words(data', b, c) && data'[b] == |c|
  {
  }

  lemma WordsLength(data: seq<Word>, b: nat, c: seq<Word>)
    requires Words(data, b, c)
    ensures var data' := Overwrite(data, b, [|c|]); Words(data', b, c) && data'[b] == |c|
  {
  }

  lemma NoWords(data: seq<Word>, b: nat, c: seq<Word>)
    requires b + 1 <= |data| && c == []
    ensures Words(data, b, c)
  {
  }

  /** The words after the elements, and a new length field. */
  /** The new elements of a list in the next block of a class. */
  lemma JunkNext(data0: seq<Word>, free0: seq<nat>, data: seq<Word>, b: nat, len: nat, n: nat, lo: nat, junk: seq<Word>)
    requires lo <= len + 1 && len <= n && n + 1 <= SClassSize(SClassForLength(n)) && b + SClassSize(SClassForLength(n)) <= |data|
    requires IsNext(data0, free0, SClassForLength(n), lo, data[b + lo..b + SClassSize(SClassForLength(n))])
    requires junk == data[b + 1 + len..b + 1 + n]
    ensures IsNext(data0, free0, SClassForLength(n), len + 1, junk)
  {
    hide SClassForLength, SClassSize, IsNext;
    var ws := data[b + lo..b + SClassSize(SClassForLength(n))];
    NextPart(data0, free0, SClassForLength(n), lo, ws, len + 1 - lo, n + 1 - lo);
    SliceOfSlice(data, b + lo, b + SClassSize(SClassForLength(n)), len + 1 - lo, n + 1 - lo);
  }

  lemma TailReserved(c: seq<Word>, junk: seq<Word>)
    ensures (forall i :: |c| <= i < |c + junk| ==> (c + junk)[i] == RESERVED) <==> AllReserved(junk)
  {
    assert forall i :: 0 <= i < |junk| ==> (c + junk)[|c| + i] == junk[i];
  }

  lemma NothingAhead(data: seq<Word>, free: seq<nat>, index: nat)
    ensures ReservedAhead(data, free, index, 0, 0)
  {
  }

  lemma WordsAndMore(data: seq<Word>, b: nat, c: seq<Word>, junk: seq<Word>)
    requires Words(data, b, c) && b + 1 + |c| + |junk| <= |data| && junk == data[b + 1 + |c|..b + 1 + |c| + |junk|]
    ensures var data' := Overwrite(data, b, [|c| + |junk|]);
      Words(data', b, c + junk) && data'[b] == |c + junk|
  {
  }

  lemma WordsFront(data: seq<Word>, b: nat, c: seq<Word>, n: nat)
    requires Words(data, b, c) && n <= |c|
    ensures Words(data, b, c[..n])
  {
  }
}
