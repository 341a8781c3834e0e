/** Sets that are sorted lists while they are small, and bit sets otherwise. */
module HybridSets {
  import opened Prelude
  import opened BitSets
  import opened BitIters

  const SPARSE_MAX: nat := 8

  class SparseBitSet {
    var elems: seq<nat>

    ghost predicate Valid()
      reads this
    {
      Ascending(elems) && |elems| <= SPARSE_MAX
    }

    constructor NewEmpty()
      ensures Valid() && elems == []
    {
      elems := [];
    }

    method Contains(e: nat) returns (b: bool)
      requires Valid()
      ensures Valid() && (b <==> e in Elements(elems))
    {
      return e in elems;
    }

    /** Insert in order; the caller sees to it that there is room for a new element. */
    method Insert(e: nat) returns (changed: bool)
      requires Valid() && (|elems| < SPARSE_MAX || e in Elements(elems))
      modifies this
      ensures Valid() && Elements(elems) == old(Elements(elems)) + {e} && changed == (e !in old(Elements(elems)))
      ensures |elems| == |old(elems)| + if changed then 1 else 0
    {
      var i := 0;
      while i < |elems| && elems[i] < e
        invariant i <= |elems| && forall k :: 0 <= k < i ==> elems[k] < e
      {
        i := i + 1;
      }
      Position(elems, e, i);
      if i < |elems| && elems[i] == e {
        changed := false;
      } else {
        elems := InsertAt(elems, i, e);
        changed := true;
      }
    }

    method Remove(e: nat) returns (changed: bool)
      requires Valid()
      modifies this
      ensures Valid() && Elements(elems) == old(Elements(elems)) - {e} && changed == (e in old(Elements(elems)))
    {
      for i := 0 to |elems|
        invariant elems == old(elems) && forall k :: 0 <= k < i ==> elems[k] != e
      {
        if elems[i] == e {
          Removed(elems, i);
          elems := RemoveAt(elems, i);
          return true;
        }
      }
      return false;
    }
  }

  /** Inserting before the first element that is not smaller keeps the order. */
  lemma Position(elems: seq<nat>, e: nat, i: nat)
    requires Ascending(elems) && i <= |elems| && (forall k :: 0 <= k < i ==> elems[k] < e) && (i < |elems| ==> elems[i] >= e)
    ensures e in Elements(elems) <==> i < |elems| && elems[i] == e
    ensures Elements(InsertAt(elems, i, e)) == Elements(elems) + {e}
    ensures e !in Elements(elems) ==> Ascending(InsertAt(elems, i, e))
  {
    var r := InsertAt(elems, i, e);
    assert r[i] == e;
    forall f ensures f in Elements(r) <==> f in Elements(elems) || f == e {
      if f in Elements(elems) {
        var k :| 0 <= k < |elems| && elems[k] == f;
        assert r[if k < i then k else k + 1] == f;
      }
    }
  }

  lemma Removed(elems: seq<nat>, i: nat)
    requires Ascending(elems) && i < |elems|
    ensures Ascending(RemoveAt(elems, i)) && Elements(RemoveAt(elems, i)) == Elements(elems) - {elems[i]}
  {
    var r := RemoveAt(elems, i);
    forall f ensures f in Elements(r) <==> f in Elements(elems) && f != elems[i] {
      if f in Elements(elems) && f != elems[i] {
        var k :| 0 <= k < |elems| && elems[k] == f;
        assert r[if k < i then k else k - 1] == f;
      }
    }
  }

  // ---------------------------------------------------------------- hybrid sets

  datatype Repr = Sparse(sparse: SparseBitSet) | Dense(dense: BitSet)

  class HybridBitSet {
    var repr: Repr

    ghost function Inner(): object
      reads this
    {
      match repr case Sparse(s) => s case Dense(d) => d
    }

    ghost function Footprint(): set<object>
      reads this
    {
      {this, Inner()}
    }

    /** `domainSize` is the domain size of all the sets that are used together. */
    ghost predicate Valid(domainSize: nat)
      reads this, Inner()
    {
      match repr
      case Sparse(s) => s.Valid() && Elements(s.elems) <= Below(domainSize)
      case Dense(d) => d.Valid() && d.domainSize == domainSize
    }

    ghost function Contents(): set<nat>
      reads this, Inner()
    {
      match repr case Sparse(s) => Elements(s.elems) case Dense(d) => d.Contents()
    }

    constructor NewEmpty(ghost domainSize: nat)
      ensures Valid(domainSize) && Contents() == {} && fresh(Footprint()) && repr.Sparse?
    {
      var s := new SparseBitSet.NewEmpty();
      repr := Sparse(s);
    }

    method Contains(e: nat, ghost domainSize: nat) returns (b: bool)
      requires Valid(domainSize) && e < domainSize
      ensures Valid(domainSize) && (b <==> e in Contents())
    {
      match repr
      case Sparse(s) => b := s.Contains(e);
      case Dense(d) => b := d.Contains(e);
    }

    method IsEmpty(ghost domainSize: nat) returns (b: bool)
      requires Valid(domainSize)
      ensures b <==> Contents() == {}
    {
      match repr
      case Sparse(s) =>
        if s.elems != [] { assert s.elems[0] in Elements(s.elems); }
        b := s.elems == [];
      case Dense(d) => b := d.IsEmpty();
    }

    method Insert(e: nat, domainSize: nat) returns (changed: bool)
      requires Valid(domainSize) && e < domainSize
      modifies Footprint()
      ensures Valid(domainSize) && fresh(Footprint() - old(Footprint()))
      ensures Contents() == old(Contents()) + {e} && changed == (e !in old(Contents()))
    {
      match repr
      case Sparse(s) =>
        if |s.elems| < SPARSE_MAX {
          changed := s.Insert(e);
        } else {
          var present := s.Contains(e);
          if present {
            changed := false;
          } else {
            var dense := ToDense(s.elems, domainSize);
            changed := dense.Insert(e);
            repr := Dense(dense);
          }
        }
      case Dense(d) => changed := d.Insert(e);
    }

    method InsertAll(domainSize: nat)
      requires Valid(domainSize)
      modifies Footprint()
      ensures Valid(domainSize) && fresh(Footprint() - old(Footprint())) && Contents() == Below(domainSize)
    {
      if repr.Dense? {
        repr.dense.InsertAll();
        return;
      }
      var dense := new BitSet.NewEmpty(domainSize);
      dense.InsertAll();
      repr := Dense(dense);
    }

    method Remove(e: nat, ghost domainSize: nat) returns (changed: bool)
      requires Valid(domainSize) && e < domainSize
      modifies Footprint()
      ensures Valid(domainSize) && Footprint() == old(Footprint())
      ensures Contents() == old(Contents()) - {e} && changed == (e in old(Contents()))
    {
      match repr
      case Sparse(s) => changed := s.Remove(e);
      case Dense(d) => changed := d.Remove(e);
    }

    /** All elements, ascending, each once. */
    method Collect(ghost domainSize: nat) returns (elems: seq<nat>)
      requires Valid(domainSize) && 64 * NumWords(domainSize) <= MAX64
      ensures Ascending(elems) && Elements(elems) == Contents()
    {
      match repr
      case Sparse(s) => elems := s.elems;
      case Dense(d) => elems := BitIters.Collect(d);
    }

    method Superset(other: HybridBitSet, ghost domainSize: nat) returns (b: bool)
      requires Valid(domainSize) && other.Valid(domainSize) && 64 * NumWords(domainSize) <= MAX64
      ensures b <==> other.Contents() <= Contents()
    {
      if repr.Dense? && other.repr.Dense? {
        b := repr.dense.Superset(other.repr.dense);
        return;
      }
      var elems := other.Collect(domainSize);
      for i := 0 to |elems|
        invariant forall k :: 0 <= k < i ==> elems[k] in Contents()
      {
        assert elems[i] in Elements(elems);
        var has := Contains(elems[i], domainSize);
        if !has { return false; }
      }
      return true;
    }

    /** `this` becomes the union of the two; the result tells whether it has changed. */
    method Union(other: HybridBitSet, domainSize: nat) returns (changed: bool)
      requires Valid(domainSize) && other.Valid(domainSize) && Footprint() !! other.Footprint() && domainSize > 0
      modifies Footprint()
      ensures Valid(domainSize) && fresh(Footprint() - old(Footprint()))
      ensures Contents() == old(Contents()) + old(other.Contents()) && changed == (Contents() != old(Contents()))
    {
      if repr.Sparse? && other.repr.Sparse? {
        changed := InsertEach(other.repr.sparse.elems, domainSize);
      } else if repr.Sparse? {
        var newDense := new BitSet.Clone(other.repr.dense);
        newDense.Ensure(domainSize);
        InDomain(repr.sparse.elems, domainSize);
        changed := newDense.ReverseUnionSparse(repr.sparse.elems);
        repr := Dense(newDense);
      } else if other.repr.Sparse? {
        InDomain(other.repr.sparse.elems, domainSize);
        changed := repr.dense.UnionSparse(other.repr.sparse.elems);
      } else {
        changed := repr.dense.Union(other.repr.dense);
      }
    }

    /** Insert one element after the other; the set may become dense on the way. */
    method InsertEach(elems: seq<nat>, domainSize: nat) returns (changed: bool)
      requires Valid(domainSize) && Elements(elems) <= Below(domainSize)
      modifies Footprint()
      ensures Valid(domainSize) && fresh(Footprint() - old(Footprint()))
      ensures Contents() == old(Contents()) + Elements(elems) && changed == (Contents() != old(Contents()))
    {
      changed := false;
      for i := 0 to |elems|
        invariant Valid(domainSize) && fresh(Footprint() - old(Footprint()))
        invariant Contents() == old(Contents()) + Elements(elems[..i]) && changed == (Contents() != old(Contents()))
      {
        TakeElement(elems, i);
        assert elems[i] in Elements(elems);
        var new_ := Insert(elems[i], domainSize);
        changed := new_ || changed;
      }
      assert elems[..|elems|] == elems;
    }

    /** `this` loses the elements of the other set; the result tells whether it has changed. */
    method Subtract(other: HybridBitSet, ghost domainSize: nat) returns (changed: bool)
      requires Valid(domainSize) && other.Valid(domainSize) && Footprint() !! other.Footprint()
      modifies Footprint()
      ensures Valid(domainSize) && Footprint() == old(Footprint())
      ensures Contents() == old(Contents()) - old(other.Contents()) && changed == (Contents() != old(Contents()))
    {
      if repr.Sparse? {
        changed := RetainOutside(other, domainSize);
      } else if other.repr.Sparse? {
        InDomain(other.repr.sparse.elems, domainSize);
        changed := repr.dense.SubtractSparse(other.repr.sparse.elems);
      } else {
        changed := repr.dense.Subtract(other.repr.dense);
      }
    }

    /** Keep the elements that are not in the other set. */
    method RetainOutside(other: HybridBitSet, ghost domainSize: nat) returns (changed: bool)
      requires repr.Sparse? && Valid(domainSize) && other.Valid(domainSize) && Footprint() !! other.Footprint()
      modifies repr.sparse
      ensures Valid(domainSize) && Contents() == old(Contents()) - old(other.Contents()) && changed == (Contents() != old(Contents()))
    {
      hide Elements, Ascending, Below, Part;
      var s := repr.sparse;
      var kept := other.Split(s.elems, false, domainSize, other.Contents());
      OutsideIs(Elements(s.elems), other.Contents());
      changed := |kept| != |s.elems|;
      s.elems := kept;
    }

    /** Those of `elems` that are in the set, or those that are not. */
    method Split(elems: seq<nat>, inside: bool, ghost domainSize: nat, ghost members: set<nat>) returns (r: seq<nat>)
      requires Valid(domainSize) && members == Contents() && Ascending(elems) && Elements(elems) <= Below(domainSize)
      ensures Ascending(r) && Elements(r) == Part(Elements(elems), members, inside)
      ensures |r| <= |elems| && (|r| == |elems| <==> Elements(r) == Elements(elems))
    {
      hide Elements, Ascending, Below;
      r := [];
      NoElements();
      assert elems[..0] == [];
      for i := 0 to |elems|
        invariant Ascending(r) && Elements(r) == Part(Elements(elems[..i]), members, inside)
      {
        InDomain(elems, domainSize);
        var has := Contains(elems[i], domainSize);
        SplitStep(elems, i, r, members, inside);
        if has == inside {
          r := r + [elems[i]];
        }
      }
      assert elems[..|elems|] == elems;
      AscendingCount(r);
      AscendingCount(elems);
      SubsetCount(Elements(r), Elements(elems));
    }

    /** `this` becomes the intersection of the two. */
    method Intersect(other: HybridBitSet, ghost domainSize: nat)
      requires Valid(domainSize) && other.Valid(domainSize) && Footprint() !! other.Footprint()
      modifies Footprint()
      ensures Valid(domainSize) && fresh(Footprint() - old(Footprint())) && Contents() == old(Contents()) * old(other.Contents())
    {
      if repr.Dense? && other.repr.Dense? {
        var _ := repr.dense.Intersect(other.repr.dense);
        return;
      }
      var res := new SparseBitSet.NewEmpty();
      if repr.Sparse? {
        res.elems := other.Split(repr.sparse.elems, true, domainSize, other.Contents());
      } else {
        res.elems := Split(other.repr.sparse.elems, true, domainSize, Contents());
      }
      repr := Sparse(res);
    }
  }

  /** The elements inside another set, or those outside. */
  function Part(elems: set<nat>, other: set<nat>, inside: bool): set<nat> {
    if inside then elems * other else elems - other
  }

  lemma OutsideIs(elems: set<nat>, other: set<nat>)
    ensures Part(elems, other, false) == elems - other <= elems
  {
  }

  lemma NoElements()
    ensures Elements([]) == {} && Ascending([])
  {
  }

  lemma SplitStep(elems: seq<nat>, i: nat, r: seq<nat>, other: set<nat>, inside: bool)
    requires Ascending(elems) && i < |elems| && Ascending(r) && Elements(r) == Part(Elements(elems[..i]), other, inside)
    ensures var r' := if (elems[i] in other) == inside then r + [elems[i]] else r;
      Ascending(r') && Elements(r') == Part(Elements(elems[..i + 1]), other, inside)
  {
    hide Elements, Ascending;
    TakeElement(elems, i);
    Later(elems, i);
    PushOne(r, elems[i]);
  }

  lemma {:induction false} SubsetCount(a: set<nat>, b: set<nat>)
    requires a <= b
    ensures |a| <= |b| && (|a| == |b| <==> a == b)
  {
    var rest := b - a;
    assert b == a + rest;
    assert |b| == |a| + |rest|;
    if |rest| == 0 { assert rest == {}; }
  }

  lemma InDomain(elems: seq<nat>, n: nat)
    requires Elements(elems) <= Below(n)
    ensures forall i :: 0 <= i < |elems| ==> elems[i] < n
  {
    forall i | 0 <= i < |elems| ensures elems[i] < n {
      assert elems[i] in Elements(elems);
    }
  }

  /** Elements before position `i` of an ascending list are smaller. */
  lemma Later(elems: seq<nat>, i: nat)
    requires Ascending(elems) && i < |elems|
    ensures forall e :: e in Elements(elems[..i]) ==> e < elems[i]
  {
  }

  method ToDense(elems: seq<nat>, domainSize: nat) returns (dense: BitSet)
    requires Elements(elems) <= Below(domainSize)
    ensures fresh(dense) && dense.Valid() && dense.domainSize == domainSize && dense.Contents() == Elements(elems)
  {
    dense := new BitSet.NewEmpty(domainSize);
    InDomain(elems, domainSize);
    var _ := dense.UnionSparse(elems);
  }

  /** A bit set as a hybrid set: sparse if it has few elements. */
  method ToHybrid(dense: BitSet) returns (h: HybridBitSet)
    requires dense.Valid() && 64 * |dense.words| <= MAX64
    ensures fresh(h) && h.Valid(dense.domainSize) && h.Contents() == dense.Contents()
    ensures h.repr.Sparse? <==> |dense.Contents()| <= SPARSE_MAX
  {
    h := new HybridBitSet.NewEmpty(dense.domainSize);
    var n := Count(dense);
    if n <= SPARSE_MAX {
      var elems := BitIters.Collect(dense);
      AscendingCount(elems);
      h.repr.sparse.elems := elems;
    } else {
      var copy := new BitSet.Clone(dense);
      h.repr := Dense(copy);
    }
  }

  lemma {:induction false} AscendingCount(elems: seq<nat>)
    requires Ascending(elems)
    ensures |Elements(elems)| == |elems|
    decreases |elems|
  {
    if elems != [] {
      var i := |elems| - 1;
      AscendingCount(elems[..i]);
      TakeElement(elems, i);
      Later(elems, i);
      assert elems[..i + 1] == elems;
    } else {
      assert Elements(elems) == {};
    }
  }
}
