/** Binary64 numbers: their bits, their value, and their form as text. */
module Ieee64 {
  import opened Prelude
  import opened Numerals

  datatype Result<+T> = Ok(value: T) | Err(message: string)

  const P52: nat := 0x10_0000_0000_0000
  const P53: nat := 0x20_0000_0000_0000
  const P63: nat := 0x8000_0000_0000_0000
  const P64: nat := 0x1_0000_0000_0000_0000
  const QUIET: nat := 0x8_0000_0000_0000

  type Bits = b: nat | b < 0x1_0000_0000_0000_0000

  /** Powers of two. */
  function Exp2(e: int): (r: real)
    ensures r > 0.0
    decreases if e < 0 then -e else e
  {
    if e == 0 then 1.0 else if e > 0 then 2.0 * Exp2(e - 1) else Exp2(e + 1) / 2.0
  }

  // ---------------------------------------------------------------- what the bits mean

  datatype Number64 = Finite(negative: bool, magnitude: real) | Infinite(negative: bool) | NotANumber(negative: bool, quiet: bool, payload: nat)

  /** Section 3.4 of IEEE 754-2019. */
  function Decode(b: Bits): Number64 {
    var negative, e, t := b / P63 == 1, b / P52 % 2048, b % P52;
    if e == 2047 then if t == 0 then Infinite(negative) else NotANumber(negative, t / QUIET == 1, t % QUIET)
    else if e == 0 then Finite(negative, t as real * Exp2(-1074))
    else Finite(negative, (P52 + t) as real * Exp2(e - 1075))
  }

  function Pack(negative: bool, e: nat, t: nat): (b: Bits)
    requires e < 2048 && t < P52
    ensures (b / P63 == 1) == negative && b / P52 % 2048 == e && b % P52 == t
  {
    (if negative then P63 else 0) + e * P52 + t
  }

  // ---------------------------------------------------------------- printing

  /** An integer in decimal notation. */
  function Decimal(i: int): string {
    if i < 0 then "-" + Natural(-i, 10) else Natural(i, 10)
  }

  /** Infinities and NaNs always have a sign. */
  function SignOf(b: Bits): string {
    if b / P63 == 1 then "-" else if b / P52 % 2048 == 2047 then "+" else ""
  }

  function BodyOf(b: Bits): string {
    var e, t := b / P52 % 2048, b % P52;
    if e == 0 then
      if t == 0 then "0.0" else "0x0." + Padded(t, 16, 13) + "p" + Decimal(-1022)
    else if e == 2047 then
      if t == 0 then "Inf"
      else if t / QUIET == 1 then
        if t % QUIET != 0 then "NaN:0x" + Natural(t % QUIET, 16) else "NaN"
      else "sNaN:0x" + Natural(t % QUIET, 16)
    else "0x1." + Padded(t, 16, 13) + "p" + Decimal(e - 1023)
  }

  function Format(b: Bits): string {
    SignOf(b) + BodyOf(b)
  }

  // ---------------------------------------------------------------- parsing

  /** An unsigned 64-bit number, possibly with a plus sign. */
  function ParseU64(s: string, base: nat): Option<nat>
    requires 2 <= base <= 16
  {
    var digits := if s != [] && s[0] == '+' then s[1..] else s;
    if digits != [] && Digits(digits, base) && Number(digits, base) < P64 then Some(Number(digits, base)) else None
  }

  /** A signed 16-bit number. */
  function ParseI16(s: string): (r: Option<int>)
    ensures r.Some? ==> -0x8000 <= r.value <= 0x7fff
  {
    var negative := s != [] && s[0] == '-';
    var digits := if s != [] && (s[0] == '+' || s[0] == '-') then s[1..] else s;
    if digits == [] || !Digits(digits, 10) then None
    else
      var n: int := if negative then -(Number(digits, 10) as int) else Number(digits, 10);
      if -0x8000 <= n <= 0x7fff then Some(n) else None
  }

  function ParseSpecial(negative: bool, s: string): Result<Bits> {
    if s == "0.0" then Ok(Pack(negative, 0, 0))
    else if s == "Inf" then Ok(Pack(negative, 2047, 0))
    else if s == "NaN" then Ok(Pack(negative, 2047, QUIET))
    else if "NaN:0x" <= s then
      match ParseU64(s[6..], 16)
      case Some(payload) => if payload < QUIET then Ok(Pack(negative, 2047, QUIET + payload)) else Err("Invalid NaN payload")
      case None => Err("Invalid NaN payload")
    else if "sNaN:0x" <= s then
      match ParseU64(s[7..], 16)
      case Some(payload) => if 0 < payload < QUIET then Ok(Pack(negative, 2047, payload)) else Err("Invalid sNaN payload")
      case None => Err("Invalid sNaN payload")
    else Err("Float must be hexadecimal")
  }

  /** What has been read of a hexadecimal number: how many digits, how many of them before the point, and their value. */
  datatype Scanned = Scanned(digits: nat, before: Option<nat>, significand: nat, exponent: int)

  function Scan(s: string, x: Scanned): (r: Result<Scanned>)
    requires x.before.Some? ==> x.before.value <= x.digits
    ensures r.Ok? && r.value.before.Some? ==> r.value.before.value <= r.value.digits
    decreases |s|
  {
    if s == [] then Ok(x)
    else if s[0] == '.' then
      if x.before.Some? then Err("Multiple radix points") else Scan(s[1..], x.(before := Some(x.digits)))
    else if s[0] == 'p' then
      match ParseI16(s[1..]) case Some(e) => Ok(x.(exponent := e)) case None => Err("Bad exponent")
    else
      match DigitOf(s[0], 16)
      case None => Err("Invalid character")
      case Some(d) =>
        if x.digits + 1 > 16 then Err("Too many digits")
        else Scan(s[1..], x.(digits := x.digits + 1, significand := x.significand * 16 + d))
  }

  /** Number of significant bits. */
  function BitLength(n: nat): (r: nat)
    ensures n > 0 ==> r > 0
  {
    if n == 0 then 0 else 1 + BitLength(n / 2)
  }

  lemma {:induction false} BitLengthBounds(n: nat)
    requires n > 0
    ensures Power(2, BitLength(n) - 1) <= n < Power(2, BitLength(n))
  {
    hide Power;
    PowerSteps(2, 0);
    if n > 1 {
      BitLengthBounds(n / 2);
      PowerSteps(2, BitLength(n / 2) - 1);
      PowerSteps(2, BitLength(n / 2));
    }
  }

  lemma {:induction false} PowerSum(a: nat, b: nat)
    ensures Power(2, a + b) == Power(2, a) * Power(2, b)
  {
    hide Power;
    PowerSteps(2, b);
    if a > 0 {
      PowerSum(a - 1, b);
      PowerSteps(2, a - 1);
      PowerSteps(2, a - 1 + b);
    }
  }

  lemma Powers()
    ensures Power(2, 52) == P52 && Power(2, 53) == P53 && Power(16, 13) == P52 && Power(16, 16) == P64
  {
    assert Power(2, 13) == 0x2000;
    PowerSum(13, 13);
    PowerSum(26, 26);
    assert Power(16, 8) == 0x1_0000_0000;
  }

  lemma QuotientBounds(n: nat, p: nat, lo: nat, hi: nat)
    requires p > 0 && lo * p <= n < hi * p
    ensures lo <= n / p < hi
  {
    Cancel(lo, n / p + 1, p);
    Cancel(n / p, hi, p);
  }

  lemma Cancel(a: int, b: int, p: nat)
    requires a * p < b * p
    ensures a < b
  {
  }

  lemma ProductBounds(n: nat, p: nat, lo: nat, hi: nat)
    requires lo <= n < hi && p > 0
    ensures lo * p <= n * p < hi * p
  {
  }

  lemma NormalBounds(significand: nat)
    requires significand > 0
    ensures var bits := BitLength(significand);
      && (bits >= 53 ==> P52 <= significand / Power(2, bits - 53) < P53)
      && (bits <= 53 ==> P52 <= significand * Power(2, 53 - bits) < P53)
  {
    var bits := BitLength(significand);
    hide Power, BitLength;
    BitLengthBounds(significand);
    Powers();
    if bits >= 53 {
      PowerSum(52, bits - 53);
      PowerSum(53, bits - 53);
      QuotientBounds(significand, Power(2, bits - 53), P52, P53);
    }
    if bits <= 53 {
      PowerSum(bits - 1, 53 - bits);
      PowerSum(bits, 53 - bits);
      ProductBounds(significand, Power(2, 53 - bits), Power(2, bits - 1), Power(2, bits));
    }
  }

  /** The significand with its highest bit in position 52. */
  function Normalize(significand: nat, exponent: int): (r: Result<(nat, int)>)
    requires significand > 0
    ensures r.Ok? ==> P52 <= r.value.0 < P53
  {
    NormalBounds(significand);
    var bits := BitLength(significand);
    if bits > 53 then
      var adjust := bits - 53;
      if significand % Power(2, adjust) != 0 then Err("Too many significant bits")
      else Ok((significand / Power(2, adjust), exponent + adjust))
    else Ok((significand * Power(2, 53 - bits), exponent - (53 - bits)))
  }

  lemma HalfBelow(significand: nat, adjust: nat)
    requires significand < P53 && adjust > 0
    ensures significand / Power(2, adjust) < P52
  {
    ProductBounds(2, Power(2, adjust - 1), 1, 3);
    QuotientBounds(significand, Power(2, adjust), 0, P52);
  }

  /** The bits for a normalized significand and a biased exponent. */
  function Encode(negative: bool, significand: nat, exponent: int): Result<Bits>
    requires P52 <= significand < P53
  {
    if exponent > 2046 then Err("Magnitude too large")
    else if exponent > 0 then Ok(Pack(negative, exponent, significand - P52))
    else if 1 - exponent <= 52 then
      var adjust := 1 - exponent;
      if significand % Power(2, adjust) != 0 then Err("Subnormal underflow")
      else
        HalfBelow(significand, adjust);
        Ok(Pack(negative, 0, significand / Power(2, adjust)))
    else Err("Magnitude too small")
  }

  function Assemble(negative: bool, x: Scanned): Result<Bits>
    requires x.before.Some? ==> x.before.value <= x.digits
  {
    if x.digits == 0 then Err("No digits")
    else if x.significand == 0 then Ok(Pack(negative, 0, 0))
    else
      var exponent := if x.before.Some? then x.exponent - 4 * (x.digits - x.before.value) else x.exponent;
      match Normalize(x.significand, exponent)
      case Err(message) => Err(message)
      case Ok(n) => Encode(negative, n.0, n.1 + 1023 + 52)
  }

  function SplitSign(s: string): (string, string) {
    if s != [] && (s[0] == '-' || s[0] == '+') then ([s[0]], s[1..]) else ("", s)
  }

  function ParseMagnitude(negative: bool, s: string): Result<Bits> {
    if "0x" <= s then
      match Scan(s[2..], Scanned(0, None, 0, 0))
      case Err(message) => Err(message)
      case Ok(x) => Assemble(negative, x)
    else ParseSpecial(negative, s)
  }

  function ParseFloat(s: string): Result<Bits> {
    var (sign, s2) := SplitSign(s);
    ParseMagnitude(sign == "-", s2)
  }

  /** The loop over the characters of a hexadecimal number. */
  method ScanHexadecimal(s: string) returns (r: Result<Scanned>)
    ensures r == Scan(s, Scanned(0, None, 0, 0))
  {
    hide DigitOf, ParseI16;
    var digits, significand, before: Option<nat> := 0, 0, None;
    for i := 0 to |s|
      invariant before.Some? ==> before.value <= digits
      invariant Scan(s, Scanned(0, None, 0, 0)) == Scan(s[i..], Scanned(digits, before, significand, 0))
    {
      var ch := s[i];
      assert s[i..] == [ch] + s[i + 1..];
      if ch == '.' {
        if before.Some? { return Err("Multiple radix points"); }
        before := Some(digits);
      } else if ch == 'p' {
        var e := ParseI16(s[i + 1..]);
        return if e.Some? then Ok(Scanned(digits, before, significand, e.value)) else Err("Bad exponent");
      } else {
        var d := DigitOf(ch, 16);
        if d.None? { return Err("Invalid character"); }
        digits := digits + 1;
        if digits > 16 { return Err("Too many digits"); }
        significand := significand * 16 + d.value;
      }
    }
    return Ok(Scanned(digits, before, significand, 0));
  }
}
