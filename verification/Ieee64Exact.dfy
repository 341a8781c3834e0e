/** Parsing never rounds, and what is printed is parsed back. */
module Ieee64Exact {
  import opened Numerals
  import opened Ieee64

  // ---------------------------------------------------------------- powers of two

  lemma {:induction false} Exp2Sum(a: int, n: nat)
    ensures Exp2(a + n) == Exp2(a) * Power(2, n) as real
    decreases n
  {
    if n > 0 {
      Exp2Sum(a, n - 1);
      Exp2Step(a + n - 1);
    }
  }

  lemma Exp2Step(e: int)
    ensures Exp2(e + 1) == 2.0 * Exp2(e)
  {
  }

  lemma Scale(x: real, k: real, m: real)
    requires x > 0.0 && k * x == m * x
    ensures k == m
  {
  }

  /** Equal values with exponents `x <= q` differ by a power of two in the significand. */
  lemma SameValue(k: nat, q: int, m: nat, x: int)
    requires x <= q && k as real * Exp2(q) == m as real * Exp2(x)
    ensures m == k * Power(2, q - x)
  {
    hide Exp2, Power;
    Exp2Sum(x, q - x);
    var p := Power(2, q - x);
    assert (k * p) as real * Exp2(x) == k as real * (Exp2(x) * p as real) by { Regroup(k as real, p as real, Exp2(x)); }
    Scale(Exp2(x), (k * p) as real, m as real);
  }

  lemma Regroup(a: real, b: real, c: real)
    ensures a * b * c == a * (c * b)
  {
  }

  /** `m` shifted left by `n` bits, with the exponent lowered, has the same value. */
  lemma Shifted(m: nat, n: nat, e: int)
    ensures (m * Power(2, n)) as real * Exp2(e - n) == m as real * Exp2(e)
  {
    hide Exp2, Power;
    Exp2Sum(e - n, n);
    Regroup(m as real, Power(2, n) as real, Exp2(e - n));
  }

  // ---------------------------------------------------------------- values of bit patterns

  /** A finite number has at most 53 significant bits, and its exponent is bounded. */
  lemma FiniteForm(b: Bits) returns (k: nat, q: int)
    requires Decode(b).Finite?
    ensures k < P53 && -1074 <= q <= 971 && Decode(b).magnitude == k as real * Exp2(q)
    ensures q > -1074 ==> k >= P52
    ensures b / P52 % 2048 == (if k >= P52 then q + 1075 else 0) && b % P52 == k % P52
  {
    hide Exp2;
    var e, t := b / P52 % 2048, b % P52;
    if e == 0 { return t, -1074; }
    return P52 + t, e - 1075;
  }

  /** Significands with the highest bit set determine the exponent. */
  lemma NormalUnique(k: nat, q: int, m: nat, x: int)
    requires P52 <= k < P53 && m < P53 && x <= q && k as real * Exp2(q) == m as real * Exp2(x)
    ensures q == x && k == m
  {
    hide Exp2;
    SameValue(k, q, m, x);
    if q > x {
      PowerSteps(2, q - x - 1);
      Doubled(k, Power(2, q - x - 1));
    }
  }

  lemma AtLeastOnce(m: nat, p: nat)
    requires p > 0
    ensures m * p >= m
  {
    assert m * p == m * (p - 1) + m;
  }

  lemma Doubled(k: nat, p: nat)
    requires p > 0
    ensures k * (2 * p) >= 2 * k
  {
    assert k * (2 * p) == (k * p) + (k * p);
    AtLeastOnce(k, p);
  }

  /** Two bit patterns that mean the same are the same. */
  lemma DecodeUnique(a: Bits, b: Bits)
    requires Decode(a) == Decode(b)
    ensures a == b
  {
    if Decode(a).Finite? {
      hide Exp2;
      var k, q := FiniteForm(a);
      var m, x := FiniteForm(b);
      if q == x { SameValue(k, q, m, x); PowerSteps(2, 0); }
      else if q > x { NormalUnique(k, q, m, x); }
      else { NormalUnique(m, x, k, q); }
    }
    Fields(a);
    Fields(b);
  }

  lemma Fields(b: Bits)
    ensures b == (b / P63) * P63 + (b / P52 % 2048) * P52 + b % P52 && b / P63 <= 1
    ensures b % P52 == b % P52 / QUIET * QUIET + b % P52 % QUIET
  {
  }

  // ---------------------------------------------------------------- from significand and exponent to bits

  /** Some finite number has this value. */
  ghost predicate Representable(v: real) {
    exists k: nat, q: int :: k < P53 && -1074 <= q <= 971 && Dyadic(k, q) == v
  }

  function Dyadic(k: nat, q: int): real {
    k as real * Exp2(q)
  }

  lemma Divisible(k: nat, p: nat)
    requires p > 0
    ensures k * p % p == 0
  {
    var d, r := k * p / p, k * p % p;
    assert k * p == d * p + r;
    assert (k - d) * p == r;
    Cancel(k - d, 1, p);
    Cancel(-1, k - d, p);
  }

  lemma ExactDivision(n: nat, p: nat)
    requires p > 0 && n % p == 0
    ensures n / p * p == n
  {
  }

  lemma FactorMod(k: nat, a: nat, b: nat)
    requires b > 0
    ensures k * (a * b) % b == 0
  {
    assert k * (a * b) == (k * a) * b;
    Divisible(k * a, b);
  }

  /** Normalizing keeps the value; it fails only for values with more than 53 significant bits. */
  lemma NormalizeExact(significand: nat, exponent: int)
    requires significand > 0
    ensures match Normalize(significand, exponent)
      case Ok(n) => Dyadic(n.0, n.1) == Dyadic(significand, exponent)
      case Err(_) => !Representable(Dyadic(significand, exponent))
  {
    hide Exp2, Power;
    var bits := BitLength(significand);
    if bits > 53 {
      var adjust := bits - 53;
      var p := Power(2, adjust);
      if significand % p == 0 {
        ExactDivision(significand, p);
        Shifted(significand / p, adjust, exponent + adjust);
      } else {
        forall k: nat, q: int | k < P53 && -1074 <= q <= 971 && Dyadic(k, q) == Dyadic(significand, exponent) ensures false {
          TooManyBits(significand, exponent, k, q);
        }
      }
    } else {
      Shifted(significand, 53 - bits, exponent);
    }
  }

  /** A long significand cannot be made shorter by raising it to a lower exponent. */
  lemma LongerIsLower(m: nat, x: int, k: nat, q: int)
    requires k < P53 <= m && Dyadic(k, q) == Dyadic(m, x)
    ensures x <= q
  {
    hide Exp2, Power;
    if q < x {
      SameValue(m, x, k, q);
      AtLeastOnce(m, Power(2, x - q));
    }
  }

  /** A number with more than 53 bits, not all of the lowest zero, has no shorter significand. */
  lemma TooManyBits(m: nat, x: int, k: nat, q: int)
    requires m > 0 && BitLength(m) > 53 && k < P53 && Dyadic(k, q) == Dyadic(m, x)
    ensures m % Power(2, BitLength(m) - 53) == 0
  {
    hide Exp2, Power, BitLength;
    var bits := BitLength(m);
    BitLengthBounds(m);
    Powers();
    PowerAtLeast(53, bits - 1);
    LongerIsLower(m, x, k, q);
    SameValue(k, q, m, x);
    EnoughShift(m, bits, k, q - x);
    PowerSum(q - x - (bits - 53), bits - 53);
    FactorMod(k, Power(2, q - x - (bits - 53)), Power(2, bits - 53));
  }

  lemma EnoughShift(m: nat, bits: nat, k: nat, n: nat)
    requires bits > 53 && Power(2, bits - 1) <= m == k * Power(2, n) && k < P53
    ensures n >= bits - 53
  {
    hide Power;
    if n < bits - 53 {
      Powers();
      PowerSum(53, bits - 54);
      PowerAtLeast(n, bits - 54);
      ProductBelow(k, Power(2, n), P53, Power(2, bits - 54));
    }
  }

  lemma PowerAtLeast(a: nat, b: nat)
    requires a <= b
    ensures Power(2, a) <= Power(2, b)
  {
    hide Power;
    PowerSum(a, b - a);
    assert Power(2, a) * 1 <= Power(2, a) * Power(2, b - a);
  }

  lemma ProductBelow(a: nat, p: nat, b: nat, q: nat)
    requires a < b && p <= q && q > 0
    ensures a * p < b * q
  {
    assert a * p <= a * q < b * q;
  }

  /** A number below the normal ones has bits only if enough of the lowest significant bits are zero. */
  lemma TooSmall(m: nat, x: int, k: nat, q: int)
    requires P52 <= m < P53 && x < -1074 && -1074 <= q && Dyadic(k, q) == Dyadic(m, x)
    ensures m % Power(2, -1074 - x) == 0 && -1074 - x <= 52
  {
    hide Exp2, Power;
    var adjust := -1074 - x;
    SameValue(k, q, m, x);
    PowerSum(q - x - adjust, adjust);
    FactorMod(k, Power(2, q - x - adjust), Power(2, adjust));
    if adjust > 52 {
      Powers();
      PowerAtLeast(53, adjust);
    }
  }

  /** Encoding keeps the value of a normalized number; it fails only if there are no bits for it. */
  lemma EncodeExact(negative: bool, m: nat, x: int)
    requires P52 <= m < P53
    ensures match Encode(negative, m, x + 1075)
      case Ok(b) => Decode(b) == Finite(negative, Dyadic(m, x))
      case Err(_) => !Representable(Dyadic(m, x))
  {
    hide Exp2, Power;
    if x > 971 {
      forall k: nat, q: int | k < P53 && -1074 <= q <= 971 && Dyadic(k, q) == Dyadic(m, x) ensures false {
        NormalUnique(m, x, k, q);
      }
    } else if x < -1074 {
      EncodeSmall(negative, m, x);
    }
  }

  lemma EncodeSmall(negative: bool, m: nat, x: int)
    requires P52 <= m < P53 && x < -1074
    ensures match Encode(negative, m, x + 1075)
      case Ok(b) => Decode(b) == Finite(negative, Dyadic(m, x))
      case Err(_) => !Representable(Dyadic(m, x))
  {
    hide Exp2, Power, Decode;
    var adjust := -1074 - x;
    var p := Power(2, adjust);
    if adjust <= 52 && m % p == 0 {
      HalfBelow(m, adjust);
      ExactDivision(m, p);
      Shifted(m / p, adjust, -1074);
      SubnormalMeans(negative, m / p);
    } else {
      forall k: nat, q: int | k < P53 && -1074 <= q <= 971 && Dyadic(k, q) == Dyadic(m, x) ensures false {
        TooSmall(m, x, k, q);
      }
    }
  }

  lemma SubnormalMeans(negative: bool, t: nat)
    requires t < P52
    ensures Decode(Pack(negative, 0, t)) == Finite(negative, Dyadic(t, -1074))
  {
    hide Exp2;
  }
}
