/** Sets of indices below a domain size, with one bit for each index. */
module BitSets {

  const WORD_BITS: nat := 64

  /** A 64-bit word, as the set of the positions of its one bits. */
  type Word = w: set<nat> | forall k :: k in w ==> k < 64

  function Not(w: Word): Word {
    set k: nat | k < 64 && k !in w
  }

  predicate Under(e: nat, n: nat) {
    e < n
  }

  /** All indices of a domain; also a word in which the lowest `n` bits are one. */
  function Below(n: nat): set<nat> {
    set e: nat | e < n && Under(e, n)
  }

  /** As few words as have a bit for each index. */
  function NumWords(domainSize: nat): (n: nat)
    ensures domainSize <= 64 * n < domainSize + 64
  {
    (domainSize + 63) / 64
  }

  predicate In(words: seq<Word>, e: nat) {
    e / 64 < |words| && e % 64 in words[e / 64]
  }

  /** The indices whose bits are one. */
  function SetOf(words: seq<Word>): (r: set<nat>)
    ensures forall e: nat :: e in r <==> In(words, e)
  {
    set e: nat | e < 64 * |words| && In(words, e)
  }

  function IndexOf(word: nat, bit: nat): nat {
    64 * word + bit
  }

  /** Every bit has an index. */
  lemma BitIndex(words: seq<Word>, i: nat, k: nat)
    requires i < |words| && k < 64
    ensures IndexOf(i, k) / 64 == i && IndexOf(i, k) % 64 == k
    ensures IndexOf(i, k) in SetOf(words) <==> k in words[i]
  {
  }

  lemma SameWords(a: seq<Word>, b: seq<Word>)
    requires |a| == |b| && SetOf(a) == SetOf(b)
    ensures a == b
  {
    forall i | 0 <= i < |a| ensures a[i] == b[i] {
      forall k: nat ensures k in a[i] <==> k in b[i] {
        if k < 64 {
          BitIndex(a, i, k);
          BitIndex(b, i, k);
        }
      }
    }
  }

  /** Apply `op` word by word to the front of `out`; tell whether a word has changed. */
  method Bitwise(out: seq<Word>, inp: seq<Word>, op: (Word, Word) -> Word) returns (res: seq<Word>, changed: bool)
    requires |inp| <= |out|
    ensures |res| == |out|
    ensures forall i :: 0 <= i < |out| ==> res[i] == if i < |inp| then op(out[i], inp[i]) else out[i]
    ensures changed <==> res != out
  {
    res := out;
    var difference: Word := {};
    for i := 0 to |inp|
      invariant |res| == |out|
      invariant forall k :: 0 <= k < |out| ==> res[k] == if k < i then op(out[k], inp[k]) else out[k]
      invariant difference != {} <==> res != out
    {
      var oldVal := res[i];
      var newVal := op(oldVal, inp[i]);
      ghost var before := res;
      res := res[i := newVal];
      difference := difference + ((oldVal - newVal) + (newVal - oldVal));
      if newVal != oldVal { assert res[i] != out[i]; } else { assert res == before; }
    }
    changed := difference != {};
  }

  class BitSet {
    var domainSize: nat
    var words: seq<Word>

    ghost predicate Valid()
      reads this
    {
      |words| == NumWords(domainSize) && Contents() <= Below(domainSize)
    }

    ghost function Contents(): set<nat>
      reads this
    {
      SetOf(words)
    }

    constructor NewEmpty(domainSize: nat)
      ensures Valid() && this.domainSize == domainSize && Contents() == {}
    {
      this.domainSize := domainSize;
      words := seq(NumWords(domainSize), _ => {});
      new;
      assert forall e :: !In(words, e);
      assert Contents() == {};
    }

    constructor Clone(other: BitSet)
      requires other.Valid()
      ensures Valid() && domainSize == other.domainSize && words == other.words
    {
      domainSize, words := other.domainSize, other.words;
    }

    /** Drop the bits of the last word that are beyond the domain. */
    method ClearExcessBits()
      requires |words| == NumWords(domainSize)
      modifies this`words
      ensures Valid() && Contents() == old(Contents()) * Below(domainSize)
    {
      var bits := domainSize % 64;
      if bits > 0 {
        var last := |words| - 1;
        words := words[last := words[last] * Below(bits)];
      }
    }

    /** All indices of the domain. */
    method InsertAll()
      requires |words| == NumWords(domainSize)
      modifies this`words
      ensures Valid() && Contents() == Below(domainSize)
    {
      words := seq(|words|, _ => Not({}));
      ClearExcessBits();
    }

    method Contains(e: nat) returns (b: bool)
      requires Valid() && e < domainSize
      ensures b <==> e in Contents()
    {
      b := e % 64 in words[e / 64];
    }

    method IsEmpty() returns (b: bool)
      requires Valid()
      ensures b <==> Contents() == {}
    {
      for i := 0 to |words|
        invariant forall k :: 0 <= k < i ==> words[k] == {}
      {
        if words[i] != {} {
          var k :| k in words[i];
          BitIndex(words, i, k);
          return false;
        }
      }
      return true;
    }

    method Superset(other: BitSet) returns (b: bool)
      requires Valid() && other.Valid() && other.domainSize == domainSize
      ensures b <==> other.Contents() <= Contents()
    {
      for i := 0 to |words|
        invariant forall e :: e in other.Contents() && e / 64 < i ==> e in Contents()
      {
        if words[i] * other.words[i] != other.words[i] {
          var k :| k in other.words[i] && k !in words[i];
          BitIndex(words, i, k);
          BitIndex(other.words, i, k);
          return false;
        }
      }
      return true;
    }

    method Insert(e: nat) returns (changed: bool)
      requires Valid() && e < domainSize
      modifies this`words
      ensures Valid() && Contents() == old(Contents()) + {e} && changed == (e !in old(Contents()))
    {
      var word := words[e / 64];
      var newWord := word + {e % 64};
      words := words[e / 64 := newWord];
      changed := newWord != word;
    }

    method Remove(e: nat) returns (changed: bool)
      requires Valid() && e < domainSize
      modifies this`words
      ensures Valid() && Contents() == old(Contents()) - {e} && changed == (e in old(Contents()))
    {
      var word := words[e / 64];
      var newWord := word - {e % 64};
      words := words[e / 64 := newWord];
      changed := newWord != word;
    }

    method Union(other: BitSet) returns (changed: bool)
      requires Valid() && other.Valid() && other.domainSize == domainSize && other != this
      modifies this`words
      ensures Valid() && Contents() == old(Contents()) + old(other.Contents()) && changed == (Contents() != old(Contents()))
    {
      ghost var before := words;
      words, changed := Bitwise(words, other.words, (a: Word, b: Word) => a + b);
      assert forall e :: e in Contents() ==> e in SetOf(before) || e in other.Contents();
      if Contents() == SetOf(before) { SameWords(words, before); }
    }

    method Subtract(other: BitSet) returns (changed: bool)
      requires Valid() && other.Valid() && other.domainSize == domainSize && other != this
      modifies this`words
      ensures Valid() && Contents() == old(Contents()) - old(other.Contents()) && changed == (Contents() != old(Contents()))
    {
      ghost var before := words;
      words, changed := Bitwise(words, other.words, (a: Word, b: Word) => a * Not(b));
      if Contents() == SetOf(before) { SameWords(words, before); }
    }

    method Intersect(other: BitSet) returns (changed: bool)
      requires Valid() && other.Valid() && other.domainSize == domainSize && other != this
      modifies this`words
      ensures Valid() && Contents() == old(Contents()) * old(other.Contents()) && changed == (Contents() != old(Contents()))
    {
      ghost var before := words;
      words, changed := Bitwise(words, other.words, (a: Word, b: Word) => a * b);
      if Contents() == SetOf(before) { SameWords(words, before); }
    }

    method Ensure(minDomainSize: nat)
      requires Valid()
      modifies this
      ensures Valid() && Contents() == old(Contents()) && domainSize == if old(domainSize) < minDomainSize then minDomainSize else old(domainSize)
    {
      if domainSize >= minDomainSize { return; }
      domainSize := minDomainSize;
      var n := NumWords(minDomainSize);
      if |words| < n {
        words := words + seq(n - |words|, _ => {});
      }
    }

    /** Insert the elements of a sparse set. */
    method UnionSparse(elems: seq<nat>) returns (changed: bool)
      requires Valid() && forall i :: 0 <= i < |elems| ==> elems[i] < domainSize
      modifies this`words
      ensures Valid() && Contents() == old(Contents()) + Elements(elems) && changed == (Contents() != old(Contents()))
    {
      changed := false;
      for i := 0 to |elems|
        invariant Valid() && Contents() == old(Contents()) + Elements(elems[..i]) && changed == (Contents() != old(Contents()))
      {
        TakeElement(elems, i);
        var new_ := Insert(elems[i]);
        changed := new_ || changed;
      }
      assert elems[..|elems|] == elems;
    }

    method SubtractSparse(elems: seq<nat>) returns (changed: bool)
      requires Valid() && forall i :: 0 <= i < |elems| ==> elems[i] < domainSize
      modifies this`words
      ensures Valid() && Contents() == old(Contents()) - Elements(elems) && changed == (Contents() != old(Contents()))
    {
      changed := false;
      for i := 0 to |elems|
        invariant Valid() && Contents() == old(Contents()) - Elements(elems[..i]) && changed == (Contents() != old(Contents()))
      {
        TakeElement(elems, i);
        var gone := Remove(elems[i]);
        changed := gone || changed;
      }
      assert elems[..|elems|] == elems;
    }

    /** Like `UnionSparse`, but the result tells whether the set has an element that is not in the sparse set. */
    method ReverseUnionSparse(elems: seq<nat>) returns (notAlready: bool)
      requires Valid() && |words| > 0 && Ascending(elems) && forall i :: 0 <= i < |elems| ==> elems[i] < domainSize
      modifies this`words
      ensures Valid() && Contents() == old(Contents()) + Elements(elems)
      ensures notAlready <==> exists e :: e in old(Contents()) && e !in Elements(elems)
    {
      hide SetOf, BitsOf, Foreign, Elements, In, Xor, Below;
      ClearExcessBits();
      ghost var before := words;
      SameContents(before, old(words), domainSize);
      notAlready := false;
      var current: nat := 0;
      var newBits: Word := {};
      Start(before, elems);
      for i := 0 to |elems|
        invariant current < |words| == |before|
        invariant current == if i == 0 then 0 else elems[i - 1] / 64
        invariant Merged(before, words, elems[..i], current)
        invariant newBits == BitsOf(elems[..i], current)
        invariant notAlready <==> Foreign(before, elems[..i], current)
      {
        var index, bit := elems[i] / 64, elems[i] % 64;
        assert current <= index;
        if index > current {
          MergeWord(before, words, elems, i, current, index);
          ForeignStep(before, elems[..i], current);
          words := words[current := words[current] + newBits];
          notAlready := notAlready || Xor(words[current], newBits) != {};
          notAlready := AnyBits(notAlready, before, elems, i, current + 1, index);
          current := index;
          newBits := {};
        }
        PushElement(before, words, elems, i, current);
        newBits := newBits + {bit};
      }
      assert elems[..|elems|] == elems;
      ForeignStep(before, elems, current);
      ghost var last := words;
      words := words[current := words[current] + newBits];
      notAlready := notAlready || Xor(words[current], newBits) != {};
      notAlready := AnyBits(notAlready, before, elems, |elems|, current + 1, |words|);
      Finish(before, last, words, elems, current, domainSize);
    }

    /** Look for bits in the words of a range, which no element of the sparse set so far is in. */
    method AnyBits(found: bool, ghost before: seq<Word>, ghost elems: seq<nat>, ghost i: nat, from: nat, to: nat) returns (r: bool)
      requires |words| == |before| && from <= to <= |words| && i <= |elems|
      requires forall k :: from <= k < to ==> words[k] == before[k]
      requires forall j :: 0 <= j < i ==> elems[j] / 64 < from
      requires found <==> Foreign(before, elems[..i], from)
      ensures r <==> Foreign(before, elems[..i], to)
    {
      hide Foreign, BitsOf;
      r := found;
      for k := from to to
        invariant r <==> Foreign(before, elems[..i], k)
      {
        ForeignStep(before, elems[..i], k);
        NoBitsOf(elems, i, k);
        r := r || words[k] != {};
      }
    }
  }

  function Xor(a: Word, b: Word): Word {
    (a - b) + (b - a)
  }

  /** The bits of one word that come from a sparse set. */
  function BitsOf(elems: seq<nat>, index: nat): Word {
    set k: nat | k < 64 && IndexOf(index, k) in Elements(elems)
  }

  /** The words before `current` have got the elements of a sparse set, the others not yet. */
  ghost predicate Merged(before: seq<Word>, words: seq<Word>, elems: seq<nat>, current: nat) {
    |words| == |before| && forall k :: 0 <= k < |words| ==> words[k] == if k < current then before[k] + BitsOf(elems, k) else before[k]
  }

  /** Some element in the words before `k` is not in the sparse set. */
  ghost predicate Foreign(before: seq<Word>, elems: seq<nat>, k: nat) {
    exists e: nat :: In(before, e) && e / 64 < k && e !in Elements(elems)
  }

  lemma SameContents(a: seq<Word>, b: seq<Word>, n: nat)
    requires SetOf(a) == SetOf(b) * Below(n) && SetOf(b) <= Below(n)
    ensures SetOf(a) == SetOf(b)
  {
  }

  lemma Start(before: seq<Word>, elems: seq<nat>)
    ensures BitsOf(elems[..0], 0) == {} && Merged(before, before, elems[..0], 0) && !Foreign(before, elems[..0], 0)
  {
  }

  lemma InBitsOf(elems: seq<nat>, e: nat)
    ensures e in Elements(elems) <==> e % 64 in BitsOf(elems, e / 64)
  {
    assert IndexOf(e / 64, e % 64) == e;
  }

  lemma ForeignStep(before: seq<Word>, elems: seq<nat>, k: nat)
    requires k < |before|
    ensures Foreign(before, elems, k + 1) <==> Foreign(before, elems, k) || Xor(before[k] + BitsOf(elems, k), BitsOf(elems, k)) != {}
    ensures Xor(before[k] + BitsOf(elems, k), BitsOf(elems, k)) == before[k] - BitsOf(elems, k)
  {
    hide Elements, BitsOf, Xor;
    XorIs(before[k], BitsOf(elems, k));
    if Foreign(before, elems, k + 1) && !Foreign(before, elems, k) {
      var e: nat :| In(before, e) && e / 64 < k + 1 && e !in Elements(elems);
      InBitsOf(elems, e);
      assert e % 64 in before[k] - BitsOf(elems, k);
    }
    if before[k] - BitsOf(elems, k) != {} {
      var j :| j in before[k] - BitsOf(elems, k);
      BitIndex(before, k, j);
      InBitsOf(elems, IndexOf(k, j));
      assert In(before, IndexOf(k, j)) && IndexOf(k, j) / 64 < k + 1;
    }
  }

  lemma XorIs(a: Word, b: Word)
    ensures Xor(a + b, b) == a - b
  {
  }

  lemma NoBitsOf(elems: seq<nat>, i: nat, k: nat)
    requires i <= |elems| && forall j :: 0 <= j < i ==> elems[j] / 64 < k
    ensures BitsOf(elems[..i], k) == {}
  {
  }

  lemma OtherBits(elems: seq<nat>, i: nat, k: nat)
    requires i < |elems|
    ensures BitsOf(elems[..i + 1], k) == if elems[i] / 64 == k then BitsOf(elems[..i], k) + {elems[i] % 64} else BitsOf(elems[..i], k)
  {
    hide Elements;
    TakeElement(elems, i);
  }

  /** The bits of the current word are merged, and a later word becomes current. */
  lemma MergeWord(before: seq<Word>, words: seq<Word>, elems: seq<nat>, i: nat, current: nat, index: nat)
    requires i <= |elems| && Merged(before, words, elems[..i], current) && current < index && current < |words|
    requires forall j :: 0 <= j < i ==> elems[j] / 64 <= current
    ensures Merged(before, words[current := words[current] + BitsOf(elems[..i], current)], elems[..i], index)
    ensures BitsOf(elems[..i], index) == {}
  {
    hide BitsOf;
    forall k | current < k <= index ensures BitsOf(elems[..i], k) == {} {
      NoBitsOf(elems, i, k);
    }
  }

  lemma PushElement(before: seq<Word>, words: seq<Word>, elems: seq<nat>, i: nat, current: nat)
    requires i < |elems| && elems[i] / 64 == current && Merged(before, words, elems[..i], current)
    ensures Merged(before, words, elems[..i + 1], current)
    ensures BitsOf(elems[..i + 1], current) == BitsOf(elems[..i], current) + {elems[i] % 64}
    ensures Foreign(before, elems[..i + 1], current) <==> Foreign(before, elems[..i], current)
  {
    hide BitsOf, Elements;
    TakeElement(elems, i);
    forall k | 0 <= k <= current ensures BitsOf(elems[..i + 1], k) == if k == current then BitsOf(elems[..i], k) + {elems[i] % 64} else BitsOf(elems[..i], k) {
      OtherBits(elems, i, k);
    }
  }

  lemma Finish(before: seq<Word>, last: seq<Word>, words: seq<Word>, elems: seq<nat>, current: nat, n: nat)
    requires Merged(before, last, elems, current) && current < |last| == |before|
    requires words == last[current := last[current] + BitsOf(elems, current)]
    requires forall j :: 0 <= j < |elems| ==> elems[j] / 64 <= current && elems[j] < n
    requires SetOf(before) <= Below(n)
    ensures SetOf(words) == SetOf(before) + Elements(elems) && SetOf(words) <= Below(n)
    ensures Foreign(before, elems, |before|) <==> exists e :: e in SetOf(before) && e !in Elements(elems)
  {
    hide BitsOf, Elements;
    assert elems[..|elems|] == elems;
    forall k | current < k < |words| ensures BitsOf(elems, k) == {} {
      NoBitsOf(elems, |elems|, k);
    }
    forall e: nat ensures e in SetOf(words) <==> e in SetOf(before) || e in Elements(elems) {
      InBitsOf(elems, e);
      ElementBelow(elems, e, current);
    }
    ElementsBelow(elems, n);
  }

  lemma ElementBelow(elems: seq<nat>, e: nat, current: nat)
    requires forall j :: 0 <= j < |elems| ==> elems[j] / 64 <= current
    ensures e in Elements(elems) ==> e / 64 <= current
  {
  }

  lemma ElementsBelow(elems: seq<nat>, n: nat)
    requires forall j :: 0 <= j < |elems| ==> elems[j] < n
    ensures Elements(elems) <= Below(n)
  {
  }

  function Elements(elems: seq<nat>): set<nat> {
    set i | 0 <= i < |elems| :: elems[i]
  }

  lemma TakeElement(elems: seq<nat>, i: nat)
    requires i < |elems|
    ensures elems[..i + 1] == elems[..i] + [elems[i]] && Elements(elems[..i + 1]) == Elements(elems[..i]) + {elems[i]}
  {
    assert forall e :: e in Elements(elems[..i + 1]) ==> e in Elements(elems[..i]) || e == elems[i];
    assert elems[..i + 1][i] == elems[i];
    forall e | e in Elements(elems[..i]) ensures e in Elements(elems[..i + 1]) {
      var j :| 0 <= j < i && elems[..i][j] == e;
      assert elems[..i + 1][j] == e;
    }
  }

  predicate Ascending(elems: seq<nat>) {
    forall i, j :: 0 <= i < j < |elems| ==> elems[i] < elems[j]
  }
}
