/** Iterating over and counting the elements of a bit set. */
module BitIters {
  import opened Prelude
  import opened BitSets

  const MAX64: nat := 0xffff_ffff_ffff_ffff

  /** Position of the lowest one bit. */
  method TrailingZeros(w: Word) returns (k: nat)
    requires w != {}
    ensures k in w && forall j :: j in w ==> k <= j
  {
    ghost var some :| some in w;
    k := 0;
    while k !in w
      invariant k <= some && forall j :: j in w ==> k <= j
      decreases some - k
    {
      k := k + 1;
    }
  }

  /**
   * `word` holds the bits of the current word that are still to come; `offset` is the index of its
   * first bit, before the start -64 modulo 2^64.
   */
  class BitIter {
    const words: seq<Word>
    var word: Word
    var offset: nat
    var next: nat

    ghost predicate Valid()
      reads this
    {
      && next <= |words| && 64 * |words| <= MAX64
      && if next == 0 then word == {} && offset == MAX64 - 63 else offset == 64 * (next - 1) && word <= words[next - 1]
    }

    ghost predicate Ahead(e: nat)
      reads this
      requires Valid()
    {
      In(words, e) && (e / 64 >= next || (e / 64 == next - 1 && e % 64 in word))
    }

    /** The elements still to come. */
    ghost function Remaining(): (r: set<nat>)
      reads this
      requires Valid()
      ensures forall e: nat :: e in r <==> Ahead(e)
    {
      set e: nat | e in SetOf(words) && Ahead(e)
    }

    constructor (words: seq<Word>)
      requires 64 * |words| <= MAX64
      ensures Valid() && this.words == words && Remaining() == SetOf(words)
    {
      this.words := words;
      word, offset, next := {}, MAX64 - 63, 0;
    }

    /** The least element still to come; none if there is none, now and later. */
    method Next() returns (r: Option<nat>)
      requires Valid()
      modifies this
      ensures Valid()
      ensures match r
        case None => old(Remaining()) == {} && Remaining() == {}
        case Some(e) => e in old(Remaining()) && Remaining() == old(Remaining()) - {e} && forall f :: f in old(Remaining()) ==> e <= f
    {
      while word == {}
        invariant Valid() && Remaining() == old(Remaining())
        decreases |words| - next
      {
        if next == |words| { return None; }
        ghost var before := Remaining();
        word := words[next];
        offset := (offset + 64) % (MAX64 + 1);
        next := next + 1;
        assert forall e: nat :: e in before <==> e in Remaining();
      }
      var bitPos := TrailingZeros(word);
      var e := bitPos + offset;
      BitIndex(words, next - 1, bitPos);
      assert e == IndexOf(next - 1, bitPos);
      ghost var before := Remaining();
      assert forall f :: f in before ==> e <= f;
      word := word - {bitPos};
      assert forall f: nat :: f in Remaining() <==> f in before && f != e;
      return Some(e);
    }
  }

  /** All elements, ascending, each once. */
  method Collect(set_: BitSet) returns (elems: seq<nat>)
    requires set_.Valid() && 64 * |set_.words| <= MAX64
    ensures Ascending(elems) && Elements(elems) == set_.Contents()
  {
    var iter := new BitIter(set_.words);
    elems := [];
    var e := iter.Next();
    ghost var left := if e.Some? then iter.Remaining() + {e.value} else {};
    while e.Some?
      invariant iter.Valid() && set_.Valid() && Ascending(elems)
      invariant e.Some? ==> forall f :: f in iter.Remaining() ==> e.value < f
      invariant left == if e.Some? then iter.Remaining() + {e.value} else {}
      invariant Elements(elems) + left == set_.Contents()
      invariant forall f, g :: f in Elements(elems) && g in left ==> f < g
      decreases left
    {
      PushOne(elems, e.value);
      elems := elems + [e.value];
      e := iter.Next();
      left := if e.Some? then iter.Remaining() + {e.value} else {};
    }
  }

  lemma PushOne(elems: seq<nat>, e: nat)
    ensures Elements(elems + [e]) == Elements(elems) + {e}
    ensures Ascending(elems) && (forall f :: f in Elements(elems) ==> f < e) ==> Ascending(elems + [e])
  {
    var all := elems + [e];
    assert all[..|elems|] == elems && all[..|elems| + 1] == all;
    TakeElement(all, |elems|);
    forall i | 0 <= i < |elems| ensures elems[i] in Elements(elems) {
    }
  }

  // ---------------------------------------------------------------- counting

  function Ones(words: seq<Word>): nat {
    if words == [] then 0 else Ones(words[..|words| - 1]) + |words[|words| - 1]|
  }

  /** The indices of the bits of one word. */
  function Indices(w: Word, i: nat): set<nat> {
    set k | k in w :: IndexOf(i, k)
  }

  lemma {:induction false} IndicesCount(w: Word, i: nat)
    ensures |Indices(w, i)| == |w|
    decreases |w|
  {
    if w == {} {
      assert Indices(w, i) == {};
    } else {
      var k :| k in w;
      IndicesCount(w - {k}, i);
      assert Indices(w, i) == Indices(w - {k}, i) + {IndexOf(i, k)};
      assert IndexOf(i, k) !in Indices(w - {k}, i);
    }
  }

  /** The number of one bits is the number of elements. */
  lemma {:induction false} OnesCount(words: seq<Word>)
    ensures Ones(words) == |SetOf(words)|
  {
    if words == [] {
      assert SetOf(words) == {};
    } else {
      var n := |words| - 1;
      var front, w := words[..n], words[n];
      OnesCount(front);
      IndicesCount(w, n);
      forall e: nat ensures e in SetOf(words) <==> e in SetOf(front) || e in Indices(w, n) {
        if e in SetOf(words) && e !in SetOf(front) { assert e == IndexOf(n, e % 64); }
      }
      assert SetOf(words) == SetOf(front) + Indices(w, n);
      assert SetOf(front) !! Indices(w, n);
    }
  }

  method Count(set_: BitSet) returns (n: nat)
    requires set_.Valid()
    ensures n == |set_.Contents()|
  {
    n := 0;
    var words := set_.words;
    for i := 0 to |words|
      invariant n == Ones(words[..i])
    {
      assert words[..i + 1][..i] == words[..i];
      n := n + |words[i]|;
    }
    assert words[..|words|] == words;
    OnesCount(words);
  }
}
