/** Numbers in text that are not hexadecimal: which texts are accepted, and what they mean. */
module Ieee64Special {
  import opened Prelude
  import opened Numerals
  import opened Ieee64
  import opened Ieee64Exact
  import opened Ieee64Text

  // ---------------------------------------------------------------- digits and small integers

  const DIGITS := "0123456789abcdef"
  const CAPITALS := "0123456789ABCDEF"

  /** The digits of base 16 in both cases, and no other characters. */
  lemma DigitTable(c: char)
    ensures |DIGITS| == |CAPITALS| == 16
    ensures forall d: nat :: DigitOf(c, 16) == Some(d) <==> d < 16 && (c == DIGITS[d] || c == CAPITALS[d])
    ensures forall d: nat :: DigitOf(c, 10) == Some(d) <==> d < 10 && c == DIGITS[d]
    ensures forall d: nat :: d < 16 ==> DigitChar(d) == DIGITS[d]
  {
    assert DIGITS[0] == '0' && DIGITS[1] == '1' && DIGITS[2] == '2' && DIGITS[3] == '3' && DIGITS[4] == '4';
    assert DIGITS[5] == '5' && DIGITS[6] == '6' && DIGITS[7] == '7' && DIGITS[8] == '8' && DIGITS[9] == '9';
    assert DIGITS[10] == 'a' && DIGITS[11] == 'b' && DIGITS[12] == 'c' && DIGITS[13] == 'd' && DIGITS[14] == 'e' && DIGITS[15] == 'f';
    assert CAPITALS[..10] == DIGITS[..10];
    assert forall d :: 0 <= d < 10 ==> CAPITALS[d] == CAPITALS[..10][d] == DIGITS[..10][d] == DIGITS[d];
  }

  predicate SignedDigits(s: string, digits: string, i: int)
    requires Digits(digits, 10)
  {
    if s == "-" + digits then i == -(Number(digits, 10) as int)
    else (s == digits || s == "+" + digits) && i == Number(digits, 10)
  }

  /** A 16-bit integer is read as its digits, with an optional sign of either kind; anything else is rejected. */
  ghost predicate DenotesI16(s: string, i: int) {
    && -0x8000 <= i <= 0x7fff
    && exists digits: string :: digits != [] && Digits(digits, 10)
         && SignedDigits(s, digits, i)
  }

  lemma ParseI16Is(s: string, i: int)
    ensures ParseI16(s) == Some(i) <==> DenotesI16(s, i)
  {
    hide DigitOf, Number;
    if ParseI16(s) == Some(i) {
      var digits := if s != [] && (s[0] == '+' || s[0] == '-') then s[1..] else s;
      assert s == digits || s == [s[0]] + digits;
    }
    if DenotesI16(s, i) {
      var digits: string :| digits != [] && Digits(digits, 10)
        && SignedDigits(s, digits, i);
      FirstDigit(digits, 10);
      assert s == digits || s[1..] == digits;
    }
  }

  /** The number that a payload is: digits, with an optional plus sign. */
  ghost predicate PayloadText(t: string, p: nat) {
    exists digits: string :: digits != [] && Digits(digits, 16) && Number(digits, 16) == p && (t == digits || t == "+" + digits)
  }

  lemma ParseU64Is(t: string, p: nat)
    ensures ParseU64(t, 16) == Some(p) <==> PayloadText(t, p) && p < P64
  {
    hide DigitOf, Number;
    if ParseU64(t, 16) == Some(p) {
      var digits := if t != [] && t[0] == '+' then t[1..] else t;
      assert t == digits || t == "+" + digits;
    }
    if PayloadText(t, p) && p < P64 {
      var digits: string :| digits != [] && Digits(digits, 16) && Number(digits, 16) == p && (t == digits || t == "+" + digits);
      FirstDigit(digits, 16);
      assert t == digits || t[1..] == digits;
    }
  }

  // ---------------------------------------------------------------- signs

  /** `s` is a sign, if it has one, and what follows. */
  predicate Signed(s: string, sign: string, body: string) {
    && s == sign + body && sign in ["", "-", "+"]
    && (sign == "" && body != [] ==> body[0] != '-' && body[0] != '+')
  }

  lemma SignIs(s: string, sign: string, body: string)
    ensures Signed(s, sign, body) <==> SplitSign(s) == (sign, body)
  {
    if Signed(s, sign, body) {
      if sign == "" { assert s == body; } else { assert s[1..] == body && s[0] == sign[0]; }
    }
    if SplitSign(s) == (sign, body) {
      assert s == sign + body;
    }
  }

  // ---------------------------------------------------------------- texts without 0x

  function QuietText(t: string): string {
    "NaN:0x" + t
  }

  function SignalingText(t: string): string {
    "sNaN:0x" + t
  }

  /** The text `body` is zero, infinity, or a NaN with or without a payload. */
  ghost predicate Names(body: string, negative: bool, x: Number64) {
    || (body == "0.0" && x == Finite(negative, 0.0))
    || (body == "Inf" && x == Infinite(negative))
    || (body == "NaN" && x == NotANumber(negative, true, 0))
    || (exists t: string, p: nat :: body == QuietText(t) && PayloadText(t, p) && p < 0x8_0000_0000_0000 && x == NotANumber(negative, true, p))
    || (exists t: string, p: nat :: body == SignalingText(t) && PayloadText(t, p) && 0 < p < 0x8_0000_0000_0000 && x == NotANumber(negative, false, p))
  }

  ghost predicate Nameable(body: string, negative: bool) {
    exists x: Number64 :: Names(body, negative, x)
  }

  lemma PackMeans(negative: bool, p: nat)
    requires p < QUIET
    ensures Decode(Pack(negative, 0, 0)) == Finite(negative, 0.0) && Decode(Pack(negative, 2047, 0)) == Infinite(negative)
    ensures Decode(Pack(negative, 2047, QUIET + p)) == NotANumber(negative, true, p)
    ensures p > 0 ==> Decode(Pack(negative, 2047, p)) == NotANumber(negative, false, p)
  {
    hide Exp2;
  }

  /** With the quiet prefix, the payload decides. */
  lemma QuietExact(negative: bool, t: string)
    ensures match ParseMagnitude(negative, QuietText(t))
      case Ok(b) => Names(QuietText(t), negative, Decode(b))
      case Err(_) => !Nameable(QuietText(t), negative)
  {
    hide Decode, Pack, ParseU64, PayloadText, Scan, Assemble;
    var body := QuietText(t);
    QuietForm(t);
    forall u: string, p: nat | body == QuietText(u) && PayloadText(u, p) && p < QUIET ensures ParseU64(t, 16) == Some(p) {
      assert u == body[6..];
      ParseU64Is(t, p);
    }
    assert forall u :: SignalingText(u)[0] == 's';
    if ParseU64(t, 16).Some? {
      var p := ParseU64(t, 16).value;
      ParseU64Is(t, p);
      if p < QUIET { PackMeans(negative, p); }
    }
  }

  lemma SignalingExact(negative: bool, t: string)
    ensures match ParseMagnitude(negative, SignalingText(t))
      case Ok(b) => Names(SignalingText(t), negative, Decode(b))
      case Err(_) => !Nameable(SignalingText(t), negative)
  {
    hide Decode, Pack, ParseU64, PayloadText, Scan, Assemble;
    var body := SignalingText(t);
    SignalingForm(t);
    forall u: string, p: nat | body == SignalingText(u) && PayloadText(u, p) && p < QUIET ensures ParseU64(t, 16) == Some(p) {
      assert u == body[7..];
      ParseU64Is(t, p);
    }
    assert forall u :: QuietText(u)[0] == 'N';
    if ParseU64(t, 16).Some? {
      var p := ParseU64(t, 16).value;
      ParseU64Is(t, p);
      if p < QUIET { PackMeans(negative, p); }
    }
  }

  /** All other texts without `0x`: three are accepted. */
  lemma ShortExact(negative: bool, body: string)
    requires !("0x" <= body) && !("NaN:0x" <= body) && !("sNaN:0x" <= body)
    ensures match ParseMagnitude(negative, body)
      case Ok(b) => Names(body, negative, Decode(b))
      case Err(_) => !Nameable(body, negative)
  {
    hide Decode, Pack, ParseU64, PayloadText, Scan, Assemble;
    PackMeans(negative, 0);
    assert forall u :: "NaN:0x" <= QuietText(u);
    assert forall u :: "sNaN:0x" <= SignalingText(u);
  }

  /**
   * Every text without `0x` after its sign: it is accepted exactly if it is `0.0`, `Inf`, `NaN`, or a
   * NaN with a payload of at most 51 bits, not zero for a signaling one; and the bits are the zero,
   * infinity or NaN that it names.
   */
  lemma SpecialExact(s: string, sign: string, body: string)
    requires Signed(s, sign, body) && !("0x" <= body)
    ensures match ParseFloat(s)
      case Ok(b) => Names(body, sign == "-", Decode(b))
      case Err(_) => !Nameable(body, sign == "-")
  {
    hide Decode, Names, Nameable, ParseMagnitude, SplitSign;
    SignIs(s, sign, body);
    if "NaN:0x" <= body {
      assert body == QuietText(body[6..]);
      QuietExact(sign == "-", body[6..]);
    } else if "sNaN:0x" <= body {
      assert body == SignalingText(body[7..]);
      SignalingExact(sign == "-", body[7..]);
    } else {
      ShortExact(sign == "-", body);
    }
  }

  /** Everything that is accepted, with or without `0x`. */
  lemma Accepted(s: string) returns (sign: string, body: string)
    ensures Signed(s, sign, body)
    ensures "0x" <= body && ParseFloat(s).Ok? ==> exists h :: WellFormed(h) && Show(h) == s
    ensures !("0x" <= body) ==> (ParseFloat(s).Ok? <==> Nameable(body, sign == "-"))
  {
    hide Names, WellFormed, Show, Decode, ParseMagnitude, SplitSign;
    sign, body := SplitSign(s).0, SplitSign(s).1;
    SignIs(s, sign, body);
    if "0x" <= body {
      if ParseFloat(s).Ok? { var h := AcceptedForm(s); }
    } else {
      SpecialExact(s, sign, body);
    }
  }

  // ---------------------------------------------------------------- what is printed

  /** Numbers are printed without leading zeros. */
  lemma {:induction false} NoLeadingZero(n: nat, base: nat)
    requires 2 <= base <= 16
    ensures if n == 0 then Natural(n, base) == "0" else Natural(n, base)[0] != '0'
    decreases n
  {
    hide Quotient, Last;
    if n >= base {
      Divide(n, base);
      QuotientPositive(n, base);
      NoLeadingZero(Quotient(n, base), base);
    }
  }

  lemma QuotientPositive(n: nat, base: nat)
    requires base >= 2 && n >= base
    ensures 0 < Quotient(n, base) < n
  {
  }

  /** Zeros, infinities and NaNs are printed by name, and the latter two always with a sign. */
  lemma SpecialPrinted(b: Bits)
    ensures match Decode(b)
      case Finite(negative, x) => x == 0.0 ==> Format(b) == if negative then "-0.0" else "0.0"
      case Infinite(negative) => Format(b) == if negative then "-Inf" else "+Inf"
      case NotANumber(negative, quiet, payload) =>
        Format(b) == (if negative then "-" else "+")
          + if quiet && payload == 0 then "NaN" else (if quiet then "NaN:0x" else "sNaN:0x") + Natural(payload, 16)
  {
    hide Exp2, Padded, Natural, Decimal;
    if b / P52 % 2048 == 0 && b % P52 > 0 {
      PositiveProduct((b % P52) as real, Exp2(-1074));
    } else if 0 < b / P52 % 2048 < 2047 {
      PositiveProduct((P52 + b % P52) as real, Exp2(b / P52 % 2048 - 1075));
    }
    assert "-" + "0.0" == "-0.0" && "-" + "Inf" == "-Inf" && "+" + "Inf" == "+Inf" && "" + "0.0" == "0.0";
  }

  lemma PositiveProduct(x: real, y: real)
    requires x > 0.0 && y > 0.0
    ensures x * y > 0.0
  {
  }

  // ---------------------------------------------------------------- fixed points of the scale

  /** Powers of two. */
  lemma PowersOfTwo(e: int)
    ensures Exp2(0) == 1.0 && Exp2(e + 1) == 2.0 * Exp2(e)
  {
  }

  /** One, the smallest positive number and the greatest finite one. */
  lemma Anchors()
    ensures Decode(0x3FF0_0000_0000_0000) == Finite(false, 1.0) && Decode(0xBFF0_0000_0000_0000) == Finite(true, 1.0)
    ensures Decode(1) == Finite(false, Exp2(-1074))
    ensures Decode(0x7FEF_FFFF_FFFF_FFFF) == Finite(false, 0x1F_FFFF_FFFF_FFFF as real * Exp2(971))
  {
    hide Exp2;
    Exp2Sum(-52, 52);
    PowersOfTwo(0);
    Powers();
  }
}
