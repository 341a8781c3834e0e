/** Characters as bytes of UTF-8 and as units of UTF-16. */
module Encodings {
  import opened Prelude
  import opened LineIndex

  // ---------------------------------------------------------------- UTF-8

  /** The bytes of a character, section 3 of RFC 3629. */
  function Utf8(c: char): (r: seq<nat>)
    ensures forall i :: 0 <= i < |r| ==> r[i] < 256
  {
    var x := c as int;
    if x < 0x80 then [x]
    else if x < 0x800 then [0xC0 + x / 0x40, Tail8(x)]
    else if x < 0x1_0000 then [0xE0 + x / 0x1000, Tail8(x / 0x40), Tail8(x)]
    else [0xF0 + x / 0x4_0000, Tail8(x / 0x1000), Tail8(x / 0x40), Tail8(x)]
  }

  /** A continuation byte holds the lowest six bits. */
  function Tail8(x: nat): (b: nat)
    ensures 0x80 <= b < 0xC0
  {
    0x80 + x % 0x40
  }

  predicate IsTail(b: nat) {
    0x80 <= b < 0xC0
  }

  /** The code point that a sequence of bytes stands for, whether or not it could be shorter. */
  function FromUtf8(bytes: seq<nat>): (r: Option<nat>)
  {
    if |bytes| == 1 && bytes[0] < 0x80 then Some(bytes[0])
    else if |bytes| == 2 && 0xC0 <= bytes[0] < 0xE0 && IsTail(bytes[1]) then
      Some((bytes[0] - 0xC0) * 0x40 + (bytes[1] - 0x80))
    else if |bytes| == 3 && 0xE0 <= bytes[0] < 0xF0 && IsTail(bytes[1]) && IsTail(bytes[2]) then
      Some((bytes[0] - 0xE0) * 0x1000 + (bytes[1] - 0x80) * 0x40 + (bytes[2] - 0x80))
    else if |bytes| == 4 && 0xF0 <= bytes[0] < 0xF8 && IsTail(bytes[1]) && IsTail(bytes[2]) && IsTail(bytes[3]) then
      Some((bytes[0] - 0xF0) * 0x4_0000 + (bytes[1] - 0x80) * 0x1000 + (bytes[2] - 0x80) * 0x40 + (bytes[3] - 0x80))
    else None
  }

  /** The six bits of each byte put together. */
  lemma SixBits(x: nat)
    ensures x == x / 0x40 * 0x40 + (Tail8(x) - 0x80)
    ensures x / 0x40 / 0x40 == x / 0x1000 && x / 0x1000 / 0x40 == x / 0x4_0000
  {
  }

  /** The bytes of a character lead back to it, and their number is the length of the character. */
  lemma Utf8Back(c: char)
    ensures FromUtf8(Utf8(c)) == Some(c as nat) && |Utf8(c)| == Len8(c)
  {
    hide Tail8;
    var x := c as nat;
    SixBits(x);
    SixBits(x / 0x40);
    SixBits(x / 0x1000);
  }

  /** A sequence of `n` bytes holds 7, 11, 16 or 21 bits. */
  lemma BitsHeld(bytes: seq<nat>, x: nat)
    requires FromUtf8(bytes) == Some(x)
    ensures 1 <= |bytes| <= 4
    ensures x < if |bytes| == 1 then 0x80 else if |bytes| == 2 then 0x800 else if |bytes| == 3 then 0x1_0000 else 0x20_0000
  {
  }

  /** No shorter sequence of bytes stands for a character. */
  lemma Utf8Shortest(c: char, bytes: seq<nat>)
    requires FromUtf8(bytes) == Some(c as nat)
    ensures |bytes| >= Len8(c)
  {
    hide FromUtf8;
    BitsHeld(bytes, c as nat);
  }

  // ---------------------------------------------------------------- UTF-16

  /** The units of a character, section 2.1 of RFC 2781: one, or a pair of surrogates. */
  function Utf16(c: char): seq<nat> {
    var x := c as int;
    if x < 0x1_0000 then [x] else [0xD800 + (x - 0x1_0000) / 0x400, 0xDC00 + (x - 0x1_0000) % 0x400]
  }

  function FromUtf16(units: seq<nat>): Option<nat> {
    if |units| == 1 && !(0xD800 <= units[0] < 0xE000) && units[0] < 0x1_0000 then Some(units[0])
    else if |units| == 2 && 0xD800 <= units[0] < 0xDC00 && 0xDC00 <= units[1] < 0xE000 then
      Some(0x1_0000 + (units[0] - 0xD800) * 0x400 + (units[1] - 0xDC00))
    else None
  }

  /** The units of a character lead back to it; their number is its length, and nothing else stands for it. */
  lemma Utf16Back(c: char)
    ensures FromUtf16(Utf16(c)) == Some(c as nat) && |Utf16(c)| == Len16(c)
    ensures forall units :: FromUtf16(units) == Some(c as nat) ==> |units| == Len16(c)
  {
  }

  // ---------------------------------------------------------------- texts

  function Encoded8(t: Text): seq<nat> {
    if t == [] then [] else Encoded8(t[..|t| - 1]) + Utf8(t[|t| - 1])
  }

  function Encoded16(t: Text): seq<nat> {
    if t == [] then [] else Encoded16(t[..|t| - 1]) + Utf16(t[|t| - 1])
  }

  /** Lengths of texts count their bytes and units. */
  lemma {:induction false} TextLengths(t: Text)
    ensures Bytes(t) == |Encoded8(t)| && Units(t) == |Encoded16(t)|
  {
    hide Utf8, Utf16, Len8, Len16;
    if t != [] {
      TextLengths(t[..|t| - 1]);
      Utf8Back(t[|t| - 1]);
      Utf16Back(t[|t| - 1]);
    }
  }
}
