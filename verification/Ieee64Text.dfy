/** The text form of binary64 numbers. */
module Ieee64Text {
  import opened Prelude
  import opened Numerals
  import opened Ieee64
  import opened Ieee64Exact

  /** A hexadecimal number: sign, digits before and after the point, and a decimal power of two. */
  datatype HexFloat = HexFloat(sign: string, whole: string, fraction: Option<string>, exponent: Option<string>)

  predicate WellFormed(h: HexFloat) {
    && h.sign in ["", "-", "+"] && Digits(h.whole, 16)
    && (h.fraction.Some? ==> Digits(h.fraction.value, 16))
    && (h.exponent.Some? ==> ParseI16(h.exponent.value).Some?)
  }

  function FractionOf(h: HexFloat): string {
    if h.fraction.Some? then h.fraction.value else ""
  }

  function Tail(fraction: Option<string>, exponent: Option<string>): string {
    (if fraction.Some? then "." + fraction.value else "") + (if exponent.Some? then "p" + exponent.value else "")
  }

  function Show(h: HexFloat): string {
    h.sign + "0x" + (h.whole + Tail(h.fraction, h.exponent))
  }

  function DigitCount(h: HexFloat): nat {
    |h.whole| + |FractionOf(h)|
  }

  lemma DigitsConcat(a: string, b: string, base: nat)
    requires 2 <= base <= 16 && Digits(a, base) && Digits(b, base)
    ensures Digits(a + b, base)
  {
    hide DigitOf;
  }

  function Significand(h: HexFloat): nat
    requires WellFormed(h)
  {
    DigitsConcat(h.whole, FractionOf(h), 16);
    Number(h.whole + FractionOf(h), 16)
  }

  /** Sixteen hexadecimal digits fit in 64 bits, so the significand does not overflow while it is read. */
  lemma SignificandFits(h: HexFloat)
    requires WellFormed(h) && DigitCount(h) <= 16
    ensures Significand(h) < P64
  {
    hide Power, Number, DigitOf;
    DigitsConcat(h.whole, FractionOf(h), 16);
    NumberBound(h.whole + FractionOf(h), 16);
    PowerGrows(DigitCount(h));
    Powers();
  }

  lemma {:induction false} PowerGrows(n: nat)
    requires n <= 16
    ensures Power(16, n) <= Power(16, 16)
    decreases 16 - n
  {
    hide Power;
    if n < 16 {
      PowerSteps(16, n);
      PowerGrows(n + 1);
    }
  }

  /** Each digit after the point stands for four bits. */
  function Exponent(h: HexFloat): int
    requires WellFormed(h)
  {
    (if h.exponent.Some? then ParseI16(h.exponent.value).value else 0) - 4 * |FractionOf(h)|
  }

  /** The number that the text denotes, apart from its sign. */
  function Magnitude(h: HexFloat): real
    requires WellFormed(h)
  {
    Dyadic(Significand(h), Exponent(h))
  }

  // ---------------------------------------------------------------- scanning

  /** Digits are read one after the other; at most 16 of them. */
  lemma {:induction false} ScanDigits(a: string, rest: string, x: Scanned)
    requires Digits(a, 16) && (x.before.Some? ==> x.before.value <= x.digits) && x.digits <= 16
    ensures Scan(a + rest, x) ==
      if x.digits + |a| > 16 then Err("Too many digits")
      else Scan(rest, x.(digits := x.digits + |a|, significand := x.significand * Power(16, |a|) + Number(a, 16)))
    decreases |a|
  {
    hide DigitOf, Power, ParseI16;
    PowerSteps(16, 0);
    if a == [] {
      assert a + rest == rest;
    } else {
      var d := DigitOf(a[0], 16).value;
      assert (a + rest)[1..] == a[1..] + rest;
      var a' := a[1..];
      assert a == [a[0]] + a';
      NumberConcat([a[0]], a', 16);
      assert Number([a[0]], 16) == d by { assert [a[0]][..0] == []; }
      PowerSteps(16, |a'|);
      Horner(x.significand, d, Power(16, |a'|), Number(a', 16));
      if x.digits + 1 <= 16 {
        ScanDigits(a', rest, x.(digits := x.digits + 1, significand := x.significand * 16 + d));
      }
    }
  }

  lemma Horner(s: nat, d: nat, p: nat, n: nat)
    ensures (s * 16 + d) * p + n == s * (16 * p) + (d * p + n)
  {
  }

  /** What scanning a well-formed number yields. */
  lemma ScanShown(h: HexFloat)
    requires WellFormed(h)
    ensures Scan(h.whole + Tail(h.fraction, h.exponent), Scanned(0, None, 0, 0)) ==
      if DigitCount(h) > 16 then Err("Too many digits")
      else Ok(Scanned(DigitCount(h), if h.fraction.Some? then Some(|h.whole|) else None, Significand(h), Exponent(h) + 4 * |FractionOf(h)|))
  {
    hide DigitOf, Power, ParseI16, Number, Scan;
    var x0 := Scanned(0, None, 0, 0);
    var tail := Tail(h.fraction, h.exponent);
    ScanDigits(h.whole, tail, x0);
    NumberConcat(h.whole, FractionOf(h), 16);
    PowerSteps(16, 0);
    assert h.whole + "" == h.whole;
    if |h.whole| <= 16 {
      var x1 := Scanned(|h.whole|, None, Number(h.whole, 16), 0);
      if h.fraction.Some? {
        var f, end := h.fraction.value, Tail(None, h.exponent);
        assert tail == ['.'] + (f + end);
        ScanPoint(f + end, x1);
        ScanDigits(f, end, x1.(before := Some(|h.whole|)));
      }
      ScanEnd(h.exponent, if h.fraction.Some? then Scanned(DigitCount(h), Some(|h.whole|), Significand(h), 0) else x1);
    }
  }

  lemma ScanPoint(rest: string, x: Scanned)
    requires x.before.None?
    ensures Scan(['.'] + rest, x) == Scan(rest, x.(before := Some(x.digits)))
  {
    assert (['.'] + rest)[1..] == rest;
  }

  lemma ScanEnd(exponent: Option<string>, x: Scanned)
    requires (x.before.Some? ==> x.before.value <= x.digits) && (exponent.Some? ==> ParseI16(exponent.value).Some?)
    ensures Scan(Tail(None, exponent), x) == Ok(if exponent.Some? then x.(exponent := ParseI16(exponent.value).value) else x)
  {
    hide ParseI16;
    if exponent.Some? {
      assert Tail(None, exponent)[1..] == exponent.value;
    }
  }

  /** Whatever scans is a well-formed number. */
  lemma {:induction false} ScanForm(s: string, x: Scanned) returns (whole: string, fraction: Option<string>, exponent: Option<string>)
    requires (x.before.Some? ==> x.before.value <= x.digits) && Scan(s, x).Ok?
    ensures s == whole + Tail(fraction, exponent) && WellFormed(HexFloat("", whole, fraction, exponent))
    ensures x.before.Some? ==> fraction.None?
    decreases |s|
  {
    hide DigitOf, ParseI16;
    if s == [] {
      whole, fraction, exponent := "", None, None;
    } else if s[0] == '.' {
      var f;
      f, fraction, exponent := ScanForm(s[1..], x.(before := Some(x.digits)));
      whole, fraction := "", Some(f);
      assert s == ['.'] + s[1..];
      assert Tail(Some(f), exponent) == "." + (f + Tail(None, exponent));
    } else if s[0] == 'p' {
      whole, fraction, exponent := "", None, Some(s[1..]);
      assert s == "p" + s[1..];
    } else {
      var d := DigitOf(s[0], 16).value;
      var w;
      w, fraction, exponent := ScanForm(s[1..], x.(digits := x.digits + 1, significand := x.significand * 16 + d));
      whole := [s[0]] + w;
      assert s == whole + Tail(fraction, exponent);
      DigitsConcat([s[0]], w, 16);
    }
  }

  // ---------------------------------------------------------------- parsing is exact

  lemma AssembleExact(negative: bool, x: Scanned)
    requires x.before.Some? ==> x.before.value <= x.digits
    ensures var v := Dyadic(x.significand, x.exponent - if x.before.Some? then 4 * (x.digits - x.before.value) else 0);
      match Assemble(negative, x)
      case Ok(b) => x.digits > 0 && Decode(b) == Finite(negative, v)
      case Err(_) => x.digits == 0 || !Representable(v)
  {
    hide Exp2, Encode, Normalize, Decode;
    if x.significand == 0 {
      SubnormalMeans(negative, 0);
    } else if x.digits > 0 {
      var exponent := x.exponent - if x.before.Some? then 4 * (x.digits - x.before.value) else 0;
      NormalizeExact(x.significand, exponent);
      var n := Normalize(x.significand, exponent);
      if n.Ok? { EncodeExact(negative, n.value.0, n.value.1); }
    }
  }

  lemma SignSplits(sign: string, rest: string)
    requires sign in ["", "-", "+"] && rest != [] && rest[0] != '-' && rest[0] != '+'
    ensures SplitSign(sign + rest) == (sign, rest)
  {
    if sign == "" { assert sign + rest == rest; } else { assert (sign + rest)[1..] == rest; }
  }

  lemma HexPrefix(rest: string)
    ensures "0x" <= "0x" + rest && ("0x" + rest)[2..] == rest && ("0x" + rest)[0] == '0'
  {
  }

  /**
   * Parsing a well-formed hexadecimal number never rounds: it yields bits that denote exactly the
   * number in the text, or it fails because there are no such bits, or no digits, or more than 16.
   */
  lemma ParsesExactly(h: HexFloat)
    requires WellFormed(h)
    ensures match ParseFloat(Show(h))
      case Ok(b) => 1 <= DigitCount(h) <= 16 && Decode(b) == Finite(h.sign == "-", Magnitude(h))
      case Err(_) => DigitCount(h) == 0 || DigitCount(h) > 16 || forall b: Bits :: Decode(b) != Finite(h.sign == "-", Magnitude(h))
  {
    hide Decode, Scan, Assemble, ParseI16, Exp2, Significand, Exponent, SplitSign, Digits, ParseSpecial;
    var body := h.whole + Tail(h.fraction, h.exponent);
    HexPrefix(body);
    assert Show(h) == h.sign + ("0x" + body);
    SignSplits(h.sign, "0x" + body);
    ScanShown(h);
    var x := Scanned(DigitCount(h), if h.fraction.Some? then Some(|h.whole|) else None, Significand(h), Exponent(h) + 4 * |FractionOf(h)|);
    AssembleExact(h.sign == "-", x);
    forall b: Bits | Decode(b).Finite? ensures Representable(Decode(b).magnitude) {
      BitsRepresent(b);
    }
  }

  lemma BitsRepresent(b: Bits)
    requires Decode(b).Finite?
    ensures Representable(Decode(b).magnitude)
  {
    hide Decode, Exp2;
    var k, q := FiniteForm(b);
    assert Dyadic(k, q) == Decode(b).magnitude;
  }

  /** What is accepted with an `0x` after its sign is a well-formed hexadecimal number. */
  lemma AcceptedForm(s: string) returns (h: HexFloat)
    requires ParseFloat(s).Ok? && "0x" <= SplitSign(s).1
    ensures WellFormed(h) && Show(h) == s
  {
    hide Scan, Assemble, Digits, ParseI16, ParseSpecial, Tail;
    var (sign, s2) := SplitSign(s);
    var whole, fraction, exponent := ScanForm(s2[2..], Scanned(0, None, 0, 0));
    h := HexFloat(sign, whole, fraction, exponent);
    var body := whole + Tail(fraction, exponent);
    assert s2 == "0x" + body by { assert body == s2[2..]; }
    assert s == sign + s2;
  }

  // ---------------------------------------------------------------- what is printed is parsed back

  lemma DecimalBack(i: int)
    requires -0x8000 <= i <= 0x7fff
    ensures ParseI16(Decimal(i)) == Some(i)
  {
    hide DigitOf, Number, Natural;
    NaturalBack(if i < 0 then -i else i, 10);
    FirstDigit(Natural(if i < 0 then -i else i, 10), 10);
    assert ("-" + Natural(if i < 0 then -i else i, 10))[1..] == Natural(if i < 0 then -i else i, 10);
  }

  lemma FirstDigit(s: string, base: nat)
    requires 2 <= base <= 16 && s != [] && Digits(s, base)
    ensures s[0] != '+' && s[0] != '-'
  {
    assert DigitOf(s[0], base).Some?;
  }

  /** The hexadecimal form of a finite number other than zero. */
  function FormOf(b: Bits): HexFloat {
    var e, t := b / P52 % 2048, b % P52;
    HexFloat(if b / P63 == 1 then "-" else "", if e == 0 then "0" else "1", Some(Padded(t, 16, 13)), Some(Decimal(if e == 0 then -1022 else e - 1023)))
  }

  /** It is what is printed, and it denotes the number. */
  lemma FormDenotes(b: Bits)
    requires Decode(b).Finite?
    ensures WellFormed(FormOf(b)) && Decode(b) == Finite(FormOf(b).sign == "-", Magnitude(FormOf(b))) && DigitCount(FormOf(b)) == 14
    ensures b / P52 % 2048 != 0 || b % P52 != 0 ==> Format(b) == Show(FormOf(b))
  {
    hide Exp2, Power, Natural, Padded, ParseI16, Decimal, Number;
    var e, t := b / P52 % 2048, b % P52;
    var h := FormOf(b);
    Powers();
    PaddedBack(t, 16, 13);
    DecimalBack(if e == 0 then -1022 else e - 1023);
    LeadDigit();
    DigitsConcat(h.whole, h.fraction.value, 16);
    NumberConcat(h.whole, h.fraction.value, 16);
    assert Significand(h) == (if e == 0 then t else P52 + t);
    assert Exponent(h) == (if e == 0 then -1022 else e - 1023) - 52;
    ShownParts(h.sign, h.whole, h.fraction.value, h.exponent.value);
    if e == 0 { assert "0x" + "0" + "." == "0x0."; } else { assert "0x" + "1" + "." == "0x1."; }
  }

  lemma LeadDigit()
    ensures Digits("0", 16) && Number("0", 16) == 0 && Digits("1", 16) && Number("1", 16) == 1
  {
    assert "0"[..0] == [] && "1"[..0] == [];
  }

  /** Payloads are parsed back. */
  lemma PayloadBack(n: nat)
    requires n < QUIET
    ensures ParseU64(Natural(n, 16), 16) == Some(n)
  {
    hide DigitOf, Number, Natural;
    NaturalBack(n, 16);
    FirstDigit(Natural(n, 16), 16);
  }

  lemma ShownParts(sign: string, whole: string, fraction: string, exponent: string)
    ensures Show(HexFloat(sign, whole, Some(fraction), Some(exponent))) == sign + ("0x" + whole + "." + fraction + "p" + exponent)
  {
  }

  lemma QuietForm(rest: string)
    ensures var s := "NaN:0x" + rest; s[6..] == rest && "NaN:0x" <= s && !("0x" <= s) && s != "0.0" && s != "Inf" && s != "NaN" && s[0] == 'N'
  {
    var s := "NaN:0x" + rest;
    assert s[0] == 'N' && |s| >= 6 && "0x"[0] == '0';
  }

  lemma SignalingForm(rest: string)
    ensures var s := "sNaN:0x" + rest;
      s[7..] == rest && "sNaN:0x" <= s && !("NaN:0x" <= s) && !("0x" <= s) && s != "0.0" && s != "Inf" && s != "NaN" && s[0] == 's'
  {
    var s := "sNaN:0x" + rest;
    assert s[0] == 's' && |s| >= 7 && "0x"[0] == '0' && "NaN:0x"[0] == 'N';
  }

  lemma ShortForms()
    ensures !("0x" <= "0.0") && !("0x" <= "Inf") && !("0x" <= "NaN") && "Inf" != "0.0" && "NaN" != "Inf" && "NaN" != "0.0"
  {
    assert "0.0"[1] == '.' && "0x"[1] == 'x' && "Inf"[0] == 'I' && "NaN"[0] == 'N';
  }

  lemma SpecialBack(b: Bits)
    requires b / P52 % 2048 == 2047 || (b / P52 % 2048 == 0 && b % P52 == 0)
    ensures ParseMagnitude(b / P63 == 1, BodyOf(b)) == Ok(b)
    ensures BodyOf(b) != [] && BodyOf(b)[0] != '-' && BodyOf(b)[0] != '+'
  {
    hide Natural, ParseU64, Scan, Assemble, Padded, Decimal;
    var t := b % P52;
    Fields(b);
    PackFields(b);
    PayloadBack(t % QUIET);
    QuietForm(Natural(t % QUIET, 16));
    SignalingForm(Natural(t % QUIET, 16));
    ShortForms();
  }

  lemma PackFields(b: Bits)
    ensures Pack(b / P63 == 1, b / P52 % 2048, b % P52) == b
  {
  }

  /** For every bit pattern: zeros of both signs, subnormal and normal numbers, infinities, and quiet and signaling NaNs. */
  lemma RoundTrip(b: Bits)
    ensures ParseFloat(Format(b)) == Ok(b)
  {
    hide WellFormed, Magnitude, FormOf, Show, BodyOf, ParseMagnitude, Exp2;
    if b / P52 % 2048 == 2047 || (b / P52 % 2048 == 0 && b % P52 == 0) {
      SpecialBack(b);
      SignSplits(SignOf(b), BodyOf(b));
    } else {
      FormDenotes(b);
      ParsesExactly(FormOf(b));
      DecodeUnique(b, ParseFloat(Format(b)).value);
    }
  }
}
