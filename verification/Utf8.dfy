/** Go strings as bytes, and the decoding of UTF-8 that a range loop over a string performs. */
module Utf8 {

  type Byte = x: int | 0 <= x < 256

  type Bytes = seq<Byte>

  predicate IsCont(b: Byte) { 0x80 <= b < 0xC0 }

  /** The length of the well-formed sequence at the front of s, 0 if there is none. */
  function RuneWidth(s: Bytes): (w: nat)
    ensures w <= 4 && w <= |s|
  {
    if s == [] then 0
    else if s[0] < 0x80 then 1
    else if |s| >= 2 && 0xC2 <= s[0] < 0xE0 && IsCont(s[1]) then 2
    else if |s| >= 3 && 0xE0 <= s[0] < 0xF0 && IsCont(s[1]) && IsCont(s[2])
            && (s[0] == 0xE0 ==> 0xA0 <= s[1]) && (s[0] == 0xED ==> s[1] < 0xA0) then 3
    else if |s| >= 4 && 0xF0 <= s[0] < 0xF5 && IsCont(s[1]) && IsCont(s[2]) && IsCont(s[3])
            && (s[0] == 0xF0 ==> 0x90 <= s[1]) && (s[0] == 0xF4 ==> s[1] < 0x90) then 4
    else 0
  }

  const RUNE_ERROR: int := 0xFFFD

  function Two(a: int, b: int): int { (a - 0xC0) * 64 + (b - 0x80) }

  function Three(a: int, b: int, c: int): int { (a - 0xE0) * 4096 + (b - 0x80) * 64 + (c - 0x80) }

  function Four(a: int, b: int, c: int, d: int): int {
    (a - 0xF0) * 262144 + (b - 0x80) * 4096 + (c - 0x80) * 64 + (d - 0x80)
  }

  /** One turn of a range loop: the rune and how many bytes it took. */
  function DecodeRune(s: Bytes): (r: (int, nat))
    requires s != []
    ensures 0 < r.1 <= |s| && 0 <= r.0 < 0x110000
  {
    var w := RuneWidth(s);
    if w == 0 then (RUNE_ERROR, 1)
    else if w == 1 then (s[0], 1)
    else if w == 2 then (Two(s[0], s[1]), 2)
    else if w == 3 then (Three(s[0], s[1], s[2]), 3)
    else (Four(s[0], s[1], s[2], s[3]), 4)
  }

  /** string(r) */
  function EncodeRune(r: int): Bytes
    requires 0 <= r < 0x110000
  {
    if r < 0x80 then [r]
    else if r < 0x800 then [0xC0 + r / 64, 0x80 + r % 64]
    else if r < 0x10000 then [0xE0 + r / 4096, 0x80 + r / 64 % 64, 0x80 + r % 64]
    else [0xF0 + r / 262144, 0x80 + r / 4096 % 64, 0x80 + r / 64 % 64, 0x80 + r % 64]
  }

  predicate ValidUtf8(s: Bytes) {
    s == [] || (RuneWidth(s) > 0 && ValidUtf8(s[RuneWidth(s)..]))
  }

  lemma {:induction false} EncodeTwo(a: Byte, b: Byte)
    requires 0xC2 <= a < 0xE0 && IsCont(b)
    ensures EncodeRune(Two(a, b)) == [a, b]
  {
    var r := Two(a, b);
    assert r / 64 == a - 0xC0 && r % 64 == b - 0x80;
  }

  /** Taking the last six bits off. */
  lemma {:induction false} LowSix(high: nat, low: nat)
    requires low < 64
    ensures (high * 64 + low) / 64 == high && (high * 64 + low) % 64 == low
  {
  }

  lemma {:induction false} SixTwice(r: nat)
    ensures r / 4096 == r / 64 / 64
  {
  }

  lemma {:induction false} SixThrice(r: nat)
    ensures r / 262144 == r / 4096 / 64
  {
  }

  lemma {:induction false} EncodeThree(a: Byte, b: Byte, c: Byte)
    requires 0xE0 <= a < 0xF0 && IsCont(b) && IsCont(c) && (a == 0xE0 ==> 0xA0 <= b)
    ensures EncodeRune(Three(a, b, c)) == [a, b, c]
  {
    var x: nat, y: nat, z: nat := a - 0xE0, b - 0x80, c - 0x80;
    LowSix(x * 64 + y, z);
    LowSix(x, y);
    SixTwice((x * 64 + y) * 64 + z);
  }

  lemma {:induction false} FourSixes(x: nat, y: nat, z: nat, u: nat)
    requires y < 64 && z < 64 && u < 64
    ensures var r := x * 262144 + y * 4096 + z * 64 + u;
            r % 64 == u && r / 64 % 64 == z && r / 4096 % 64 == y && r / 262144 == x
  {
    var r := ((x * 64 + y) * 64 + z) * 64 + u;
    LowSix((x * 64 + y) * 64 + z, u);
    LowSix(x * 64 + y, z);
    LowSix(x, y);
    SixTwice(r);
    SixThrice(r);
  }

  lemma {:induction false} EncodeFour(a: Byte, b: Byte, c: Byte, d: Byte)
    requires 0xF0 <= a < 0xF5 && IsCont(b) && IsCont(c) && IsCont(d)
    requires (a == 0xF0 ==> 0x90 <= b) && (a == 0xF4 ==> b < 0x90)
    ensures EncodeRune(Four(a, b, c, d)) == [a, b, c, d]
  {
    FourSixes(a - 0xF0, b - 0x80, c - 0x80, d - 0x80);
  }

  /** Encoding undoes decoding of a well-formed sequence; an ill-formed byte becomes U+FFFD, which is
      never what was there. */
  lemma {:induction false} EncodeDecode(s: Bytes)
    requires s != []
    ensures RuneWidth(s) > 0 ==> EncodeRune(DecodeRune(s).0) == s[..DecodeRune(s).1]
    ensures RuneWidth(s) == 0 ==> EncodeRune(DecodeRune(s).0) == [0xEF, 0xBF, 0xBD] && DecodeRune(s).1 == 1
  {
    var w := RuneWidth(s);
    if w == 2 {
      EncodeTwo(s[0], s[1]);
    } else if w == 3 {
      EncodeThree(s[0], s[1], s[2]);
    } else if w == 4 {
      EncodeFour(s[0], s[1], s[2], s[3]);
    }
  }

  /** A code point that is not a surrogate. */
  predicate IsScalar(r: int) {
    0 <= r < 0xD800 || 0xE000 <= r <= 0x10FFFF
  }

  lemma {:induction false} DecodedIsScalar(s: Bytes)
    requires s != []
    ensures IsScalar(DecodeRune(s).0)
  {
  }

  /** Decoding undoes encoding, whatever follows. */
  lemma {:induction false} DecodeEncode(r: int, rest: Bytes)
    requires IsScalar(r)
    ensures RuneWidth(EncodeRune(r) + rest) == |EncodeRune(r)|
    ensures DecodeRune(EncodeRune(r) + rest) == (r, |EncodeRune(r)|)
  {
    if r >= 0x800 {
      SixTwice(r);
    }
    if r >= 0x10000 {
      SixThrice(r);
    }
  }

  /** A sequence is well-formed exactly when it is the encoding of a scalar value, and then that value
      is what it decodes to. */
  lemma {:induction false} WellFormedExactly(s: Bytes)
    requires s != []
    ensures RuneWidth(s) > 0 <==> exists r :: IsScalar(r) && EncodeRune(r) <= s
    ensures forall r :: IsScalar(r) && EncodeRune(r) <= s ==> DecodeRune(s) == (r, |EncodeRune(r)|)
  {
    hide EncodeRune, RuneWidth, DecodeRune;
    if RuneWidth(s) > 0 {
      EncodeDecode(s);
      DecodedIsScalar(s);
      assert EncodeRune(DecodeRune(s).0) <= s;
    }
    forall r | IsScalar(r) && EncodeRune(r) <= s
      ensures RuneWidth(s) > 0 && DecodeRune(s) == (r, |EncodeRune(r)|)
    {
      assert s == EncodeRune(r) + s[|EncodeRune(r)|..];
      DecodeEncode(r, s[|EncodeRune(r)|..]);
      EncodedIsNotEmpty(r);
    }
  }

  lemma {:induction false} EncodedIsNotEmpty(r: int)
    requires 0 <= r < 0x110000
    ensures EncodeRune(r) != []
  {
  }

  /** The encodings of U+0024, U+00A3, U+20AC and U+10348. */
  lemma {:induction false} EncodedLiterals()
    ensures EncodeRune(0x24) == [0x24] && EncodeRune(0xA3) == [0xC2, 0xA3]
    ensures EncodeRune(0x20AC) == [0xE2, 0x82, 0xAC] && EncodeRune(0x10348) == [0xF0, 0x90, 0x8D, 0x88]
  {
  }

  /** The value with every ill-formed byte replaced. */
  function Sanitized(s: Bytes): Bytes {
    if s == [] then [] else EncodeRune(DecodeRune(s).0) + Sanitized(s[DecodeRune(s).1..])
  }

  lemma {:induction false} WidthIsUsed(s: Bytes)
    requires s != []
    ensures DecodeRune(s).1 == if RuneWidth(s) == 0 then 1 else RuneWidth(s)
  {
  }

  lemma {:induction false} SanitizedGrows(s: Bytes)
    ensures |s| <= |Sanitized(s)|
    ensures |Sanitized(s)| == |s| ==> ValidUtf8(s)
  {
    hide EncodeRune;
    if s != [] {
      EncodeDecode(s);
      WidthIsUsed(s);
      hide RuneWidth, DecodeRune;
      SanitizedGrows(s[DecodeRune(s).1..]);
    }
  }

  lemma {:induction false} ValidIsSanitized(s: Bytes)
    requires ValidUtf8(s)
    ensures Sanitized(s) == s
  {
    hide EncodeRune;
    if s != [] {
      EncodeDecode(s);
      WidthIsUsed(s);
      hide RuneWidth, DecodeRune;
      ValidIsSanitized(s[RuneWidth(s)..]);
      assert s == s[..RuneWidth(s)] + s[RuneWidth(s)..];
    }
  }

  lemma {:induction false} SanitizedExactly(s: Bytes)
    ensures Sanitized(s) == s <==> ValidUtf8(s)
  {
    SanitizedGrows(s);
    if ValidUtf8(s) {
      ValidIsSanitized(s);
    }
  }

  /** A rune below 0x80 is exactly a byte below 0x80 standing alone. */
  lemma {:induction false} AsciiRune(s: Bytes)
    requires s != []
    ensures DecodeRune(s).0 < 0x80 <==> s[0] < 0x80
    ensures s[0] < 0x80 ==> DecodeRune(s) == (s[0], 1)
    ensures s[0] >= 0x80 ==> forall i :: 0 <= i < DecodeRune(s).1 ==> s[i] >= 0x80
  {
  }

  /** ASCII text as bytes. */
  function Ascii(s: string): Bytes {
    seq(|s|, i requires 0 <= i < |s| => s[i] as int % 128)
  }

  lemma {:induction false} AsciiConcat(a: string, b: string)
    ensures Ascii(a + b) == Ascii(a) + Ascii(b)
  {
  }
}
