/** Numbers written with digits. */
module Numerals {
  import opened Prelude

  /** Value of a digit; upper and lower case letters are digits above nine. */
  function DigitOf(c: char, base: nat): (r: Option<nat>)
    ensures r.Some? ==> r.value < base && c != '.' && c != 'p' && c != '+' && c != '-'
    requires 2 <= base <= 16
  {
    var d := if '0' <= c <= '9' then c as int - '0' as int
             else if 'a' <= c <= 'f' then c as int - 'a' as int + 10
             else if 'A' <= c <= 'F' then c as int - 'A' as int + 10
             else 16;
    if d < base then Some(d) else None
  }

  function DigitChar(d: nat): char
    requires d < 16
  {
    if d < 10 then ('0' as int + d) as char else ('a' as int + d - 10) as char
  }

  lemma DigitBack(d: nat, base: nat)
    requires 2 <= base <= 16 && d < base
    ensures DigitOf(DigitChar(d), base) == Some(d)
  {
  }

  function Power(base: nat, n: nat): (r: nat)
    ensures base > 0 ==> r > 0
  {
    if n == 0 then 1 else base * Power(base, n - 1)
  }

  predicate Digits(s: string, base: nat)
    requires 2 <= base <= 16
  {
    forall i :: 0 <= i < |s| ==> DigitOf(s[i], base).Some?
  }

  function Push(n: nat, base: nat, d: nat): nat {
    n * base + d
  }

  function Quotient(n: nat, base: nat): (r: nat)
    requires base > 0
    ensures base >= 2 && n > 0 ==> r < n
  {
    n / base
  }

  function Last(n: nat, base: nat): (r: nat)
    requires base > 0
    ensures r < base
  {
    n % base
  }

  /** The number that a string of digits denotes. */
  function Number(s: string, base: nat): nat
    requires 2 <= base <= 16 && Digits(s, base)
  {
    if s == [] then 0 else Push(Number(s[..|s| - 1], base), base, DigitOf(s[|s| - 1], base).value)
  }

  lemma {:induction false} NumberConcat(a: string, b: string, base: nat)
    requires 2 <= base <= 16 && Digits(a, base) && Digits(b, base)
    ensures Digits(a + b, base) && Number(a + b, base) == Number(a, base) * Power(base, |b|) + Number(b, base)
  {
    hide DigitOf, Power;
    if b == [] {
      assert a + b == a && Power(base, 0) == 1 by { PowerSteps(base, 0); }
    } else {
      var b' := b[..|b| - 1];
      assert (a + b)[..|a + b| - 1] == a + b';
      NumberConcat(a, b', base);
      PowerSteps(base, |b'|);
      Distribute(Number(a, base), Power(base, |b'|), Number(b', base), base);
    }
  }

  lemma PowerSteps(base: nat, n: nat)
    ensures Power(base, 0) == 1 && Power(base, n + 1) == base * Power(base, n)
  {
  }

  lemma Distribute(x: nat, p: nat, y: nat, base: nat)
    ensures (x * p + y) * base == x * (base * p) + y * base
  {
  }

  lemma {:induction false} NumberBound(s: string, base: nat)
    requires 2 <= base <= 16 && Digits(s, base)
    ensures Number(s, base) < Power(base, |s|)
  {
    hide DigitOf, Power;
    PowerSteps(base, 0);
    if s != [] {
      NumberBound(s[..|s| - 1], base);
      PowerSteps(base, |s| - 1);
      PushBelow(Number(s[..|s| - 1], base), DigitOf(s[|s| - 1], base).value, base, Power(base, |s| - 1));
    }
  }

  lemma PushBelow(x: nat, d: nat, base: nat, p: nat)
    requires x < p && d < base
    ensures x * base + d < base * p
  {
    assert (x + 1) * base <= p * base;
  }

  /** Digits of a number, the highest first. */
  function Natural(n: nat, base: nat): (s: string)
    requires 2 <= base <= 16
    ensures s != []
  {
    if n < base then [DigitChar(n)] else Natural(Quotient(n, base), base) + [DigitChar(Last(n, base))]
  }

  lemma {:induction false} NaturalBack(n: nat, base: nat)
    requires 2 <= base <= 16
    ensures Digits(Natural(n, base), base) && Number(Natural(n, base), base) == n
  {
    hide DigitOf, DigitChar, Quotient, Last;
    if n < base {
      DigitBack(n, base);
      assert Number([DigitChar(n)][..0], base) == 0;
    } else {
      Divide(n, base);
      NaturalBack(Quotient(n, base), base);
      DigitBack(Last(n, base), base);
      PushDigit(Natural(Quotient(n, base), base), Last(n, base), base);
    }
  }

  lemma PushDigit(s: string, d: nat, base: nat)
    requires 2 <= base <= 16 && Digits(s, base) && d < base
    ensures Digits(s + [DigitChar(d)], base) && Number(s + [DigitChar(d)], base) == Push(Number(s, base), base, d)
  {
    DigitBack(d, base);
    assert (s + [DigitChar(d)])[..|s|] == s;
  }

  lemma Divide(n: nat, base: nat)
    requires base > 0
    ensures n == Push(Quotient(n, base), base, Last(n, base))
  {
  }

  /** The lowest digits of a number, padded with zeros. */
  function Padded(n: nat, base: nat, width: nat): (s: string)
    requires 2 <= base <= 16
    ensures |s| == width
    decreases width
  {
    if width == 0 then [] else Padded(Quotient(n, base), base, width - 1) + [DigitChar(Last(n, base))]
  }

  lemma {:induction false} PaddedBack(n: nat, base: nat, width: nat)
    requires 2 <= base <= 16 && n < Power(base, width)
    ensures Digits(Padded(n, base, width), base) && Number(Padded(n, base, width), base) == n
    decreases width
  {
    hide DigitOf, DigitChar, Power, Digits, Number, Quotient, Last, Push;
    EmptyNumber(base);
    PowerSteps(base, 0);
    if width > 0 {
      PowerSteps(base, width - 1);
      DivideBelow(n, base, Power(base, width - 1));
      Divide(n, base);
      PaddedBack(Quotient(n, base), base, width - 1);
      PushDigit(Padded(Quotient(n, base), base, width - 1), Last(n, base), base);
    }
  }

  lemma EmptyNumber(base: nat)
    requires 2 <= base <= 16
    ensures Digits([], base) && Number([], base) == 0
  {
  }

  lemma DivideBelow(n: nat, base: nat, k: nat)
    requires base > 0 && n < base * k
    ensures Quotient(n, base) < k
  {
    var q := n / base;
    Divide(n, base);
    Commute(base, k);
    CancelFactor(q, k, base);
  }

  lemma Commute(a: int, b: int)
    ensures a * b == b * a
  {
  }

  lemma CancelFactor(a: nat, b: nat, p: nat)
    requires a * p < b * p
    ensures a < b
  {
  }
}
