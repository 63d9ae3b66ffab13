/**
 * The integer part of the colour code: `SKColor(hex:)` decodes a string of
 * hexadecimal digits into four 8-bit channels, and `hexString` writes the
 * channels back as upper-case `%02X` pairs. The division of each channel by
 * 255 into a floating-point component, and back, is idealised as exact.
 */
module HexColor {

  /** An 8-bit colour channel. */
  type Channel = x: int | 0 <= x < 256

  datatype Rgba = Rgba(a: Channel, r: Channel, g: Channel, b: Channel)

  /** The channels of a failed decode: opaque black. */
  const Fallback: Rgba := Rgba(255, 0, 0, 0)

  /**
   * Membership in `CharacterSet.alphanumerics`, restricted to ASCII letters
   * and digits; the game's colour codes are all ASCII.
   */
  predicate IsAlphanumeric(c: char)
  {
    ('a' <= c <= 'z') || ('A' <= c <= 'Z') || ('0' <= c <= '9')
  }

  /** Drops the leading characters that are not alphanumeric. */
  function TrimStart(s: string): (t: string)
    ensures |t| <= |s| && t == s[|s| - |t|..]
    ensures |t| > 0 ==> IsAlphanumeric(t[0])
    ensures forall i :: 0 <= i < |s| - |t| ==> !IsAlphanumeric(s[i])
  {
    if |s| == 0 || IsAlphanumeric(s[0]) then s else TrimStart(s[1..])
  }

  /** Drops the trailing characters that are not alphanumeric. */
  function TrimEnd(s: string): (t: string)
    ensures |t| <= |s| && t == s[..|t|]
    ensures |t| > 0 ==> IsAlphanumeric(t[|t| - 1])
    ensures forall i :: |t| <= i < |s| ==> !IsAlphanumeric(s[i])
  {
    if |s| == 0 || IsAlphanumeric(s[|s| - 1]) then s else TrimEnd(s[..|s| - 1])
  }

  /** `hex.trimmingCharacters(in: CharacterSet.alphanumerics.inverted)`. */
  function Trim(s: string): string
  {
    TrimEnd(TrimStart(s))
  }

  predicate IsHexDigit(c: char)
  {
    ('0' <= c <= '9') || ('a' <= c <= 'f') || ('A' <= c <= 'F')
  }

  predicate IsUpperHexDigit(c: char)
  {
    ('0' <= c <= '9') || ('A' <= c <= 'F')
  }

  predicate AllHex(s: string)
  {
    forall i :: 0 <= i < |s| ==> IsHexDigit(s[i])
  }

  predicate AllUpperHex(s: string)
  {
    forall i :: 0 <= i < |s| ==> IsUpperHexDigit(s[i])
  }

  function DigitValue(c: char): (d: nat)
    requires IsHexDigit(c)
    ensures d < 16
  {
    if '0' <= c <= '9' then c as int - '0' as int
    else if 'a' <= c <= 'f' then c as int - 'a' as int + 10
    else c as int - 'A' as int + 10
  }

  /** The digit `%X` prints for a value below 16. */
  function UpperDigit(d: nat): (c: char)
    requires d < 16
    ensures IsUpperHexDigit(c)
  {
    if d < 10 then ('0' as int + d) as char else ('A' as int + d - 10) as char
  }

  /** Upper-case form of a hexadecimal digit. */
  function ToUpper(c: char): char
    requires IsHexDigit(c)
  {
    if 'a' <= c <= 'f' then (c as int - 'a' as int + 'A' as int) as char else c
  }

  lemma DigitRoundTrip(c: char)
    requires IsHexDigit(c)
    ensures UpperDigit(DigitValue(c)) == ToUpper(c)
  {
  }

  lemma UpperDigitRoundTrip(d: nat)
    requires d < 16
    ensures DigitValue(UpperDigit(d)) == d
  {
  }

  function Pow16(n: nat): (p: nat)
    ensures p > 0
  {
    if n == 0 then 1 else 16 * Pow16(n - 1)
  }

  /** The longest prefix of `s` made of hexadecimal digits. */
  function HexPrefix(s: string): (p: string)
    ensures |p| <= |s|
    ensures p == s[..|p|] && AllHex(p)
    ensures |p| < |s| ==> !IsHexDigit(s[|p|])
  {
    if |s| == 0 || !IsHexDigit(s[0]) then []
    else
      var rest := HexPrefix(s[1..]);
      assert s[..|rest| + 1] == [s[0]] + rest;
      [s[0]] + rest
  }

  /** The number a string of hexadecimal digits denotes, most significant digit first. */
  function HexValue(s: string): nat
    requires AllHex(s)
  {
    if |s| == 0 then 0 else HexValue(s[..|s| - 1]) * 16 + DigitValue(s[|s| - 1])
  }

  lemma {:induction false} HexValueBound(s: string)
    requires AllHex(s)
    ensures HexValue(s) < Pow16(|s|)
  {
    if |s| > 0 {
      HexValueBound(s[..|s| - 1]);
    }
  }

  /**
   * `Scanner.scanHexInt64`: an optional `0x`/`0X` prefix, then as many hexadecimal
   * digits as there are; 0 when there are none. Values wider than 64 bits are not
   * clamped: no caller below reads one.
   */
  function ScanHex(s: string): (v: nat)
    ensures v < Pow16(|s|)
  {
    if |s| >= 3 && s[0] == '0' && (s[1] == 'x' || s[1] == 'X') && IsHexDigit(s[2]) then
      var p := HexPrefix(s[2..]);
      HexValueBound(p);
      PowMonotone(|p|, |s|);
      HexValue(p)
    else
      var p := HexPrefix(s);
      HexValueBound(p);
      PowMonotone(|p|, |s|);
      HexValue(p)
  }

  lemma {:induction false} PowMonotone(m: nat, n: nat)
    requires m <= n
    ensures Pow16(m) <= Pow16(n)
  {
    if m < n {
      PowMonotone(m, n - 1);
    }
  }

  /**
   * `SKColor(hex:)`, integer part: 3 digits are 12-bit RGB (each nibble times 17),
   * 6 digits are RRGGBB, 8 digits are AARRGGBB, any other length is opaque black.
   */
  function Decode(hex: string): (c: Rgba)
    ensures |Trim(hex)| !in {3, 6, 8} ==> c == Fallback
    ensures |Trim(hex)| in {3, 6} ==> c.a == 255
  {
    var t := Trim(hex);
    var v := ScanHex(t);
    if |t| == 3 then
      assert Pow16(3) == 4096;
      Rgba(255, (v / 256) * 17, ((v / 16) % 16) * 17, (v % 16) * 17)
    else if |t| == 6 then
      assert Pow16(6) == 16777216;
      Rgba(255, v / 65536, (v / 256) % 256, v % 256)
    else if |t| == 8 then
      assert Pow16(8) == 4294967296;
      Rgba(v / 16777216, (v / 65536) % 256, (v / 256) % 256, v % 256)
    else
      Fallback
  }

  /** `%02X` of one channel. */
  function Byte(v: Channel): (s: string)
    ensures |s| == 2 && AllUpperHex(s)
  {
    [UpperDigit(v / 16), UpperDigit(v % 16)]
  }

  /** `hexString`: `%02X%02X%02X`, with the alpha pair in front when the colour is translucent. */
  function HexString(c: Rgba): (s: string)
    ensures AllUpperHex(s)
    ensures |s| == (if c.a < 255 then 8 else 6)
  {
    if c.a < 255 then Byte(c.a) + Byte(c.r) + Byte(c.g) + Byte(c.b)
    else Byte(c.r) + Byte(c.g) + Byte(c.b)
  }

  /** Appending digits shifts the value left by four bits per digit. */
  lemma {:induction false} HexValueAppend(a: string, b: string)
    requires AllHex(a) && AllHex(b)
    ensures AllHex(a + b)
    ensures HexValue(a + b) == HexValue(a) * Pow16(|b|) + HexValue(b)
  {
    if |b| == 0 {
      assert a + b == a;
    } else {
      var b' := b[..|b| - 1];
      assert (a + b)[..|a + b| - 1] == a + b';
      assert (a + b)[|a + b| - 1] == b[|b| - 1];
      HexValueAppend(a, b');
      Regroup(HexValue(a), Pow16(|b'|), HexValue(b'), DigitValue(b[|b| - 1]));
    }
  }

  lemma Regroup(x: int, p: int, y: int, d: int)
    ensures (x * p + y) * 16 + d == x * (16 * p) + (y * 16 + d)
  {
  }

  lemma HexValueOfPair(s: string)
    requires |s| == 2 && AllHex(s)
    ensures HexValue(s) == 16 * DigitValue(s[0]) + DigitValue(s[1])
  {
    assert s[..1][..0] == [];
    assert HexValue(s[..1]) == DigitValue(s[0]);
  }

  /** A string of digits is always kept whole by the trimming and the scan. */
  lemma TrimOfDigits(s: string)
    requires AllHex(s)
    ensures Trim(s) == s
  {
    if |s| > 0 {
      assert IsAlphanumeric(s[0]) && IsAlphanumeric(s[|s| - 1]);
    }
    assert TrimStart(s) == s;
    assert TrimEnd(s) == s;
  }

  lemma PrefixOfDigits(s: string)
    requires AllHex(s)
    ensures HexPrefix(s) == s
  {
  }

  lemma ScanOfDigits(s: string)
    requires AllHex(s)
    ensures Trim(s) == s
    ensures ScanHex(s) == HexValue(s)
  {
    TrimOfDigits(s);
    if |s| >= 2 {
      assert IsHexDigit(s[1]);
      assert s[1] != 'x' && s[1] != 'X';
    }
    PrefixOfDigits(s);
  }

  /** Euclidean division by the powers of 16 the decoder uses, one shift at a time. */
  lemma Div16(q: int, r: int)
    requires 0 <= r < 16
    ensures (16 * q + r) / 16 == q && (16 * q + r) % 16 == r
  {
  }

  lemma Div256(q: int, r: int)
    requires 0 <= r < 256
    ensures (256 * q + r) / 256 == q && (256 * q + r) % 256 == r
  {
  }

  lemma Div65536(q: int, r: int)
    requires 0 <= r < 65536
    ensures (65536 * q + r) / 65536 == q
  {
  }

  lemma Div16777216(q: int, r: int)
    requires 0 <= r < 16777216
    ensures (16777216 * q + r) / 16777216 == q
  {
  }

  lemma SplitBytes(v: nat, p0: nat, p1: nat, p2: nat)
    requires p1 < 256 && p2 < 256 && v == 65536 * p0 + 256 * p1 + p2
    ensures v / 65536 == p0 && (v / 256) % 256 == p1 && v % 256 == p2
  {
    assert v == 256 * (256 * p0 + p1) + p2;
    Div256(256 * p0 + p1, p2);
    Div256(p0, p1);
    assert v == 65536 * p0 + (256 * p1 + p2);
    Div65536(p0, 256 * p1 + p2);
  }

  /** Six digits are decoded as one RRGGBB number. */
  lemma DecodeOfSixDigits(s: string)
    requires |s| == 6 && AllHex(s)
    ensures var v := HexValue(s);
      Decode(s) == Rgba(255, v / 65536, (v / 256) % 256, v % 256)
  {
    ScanOfDigits(s);
  }

  /** Six digits denote their three pairs' values, most significant first. */
  lemma {:induction false} SixDigitValue(s: string)
    requires |s| == 6 && AllHex(s)
    ensures HexValue(s[0..2]) < 256 && HexValue(s[2..4]) < 256 && HexValue(s[4..6]) < 256
    ensures HexValue(s) == 65536 * HexValue(s[0..2]) + 256 * HexValue(s[2..4]) + HexValue(s[4..6])
  {
    var p0, p1, p2 := s[0..2], s[2..4], s[4..6];
    HexValueBound(p0);
    HexValueBound(p1);
    HexValueBound(p2);
    assert Pow16(2) == 256;
    HexValueAppend(p0, p1);
    HexValueAppend(p0 + p1, p2);
    assert p0 + p1 + p2 == s;
  }

  /** Reading six digits: the channels are the values of the three digit pairs. */
  lemma {:induction false} DecodeSix(s: string)
    requires |s| == 6 && AllHex(s)
    ensures HexValue(s[0..2]) < 256 && HexValue(s[2..4]) < 256 && HexValue(s[4..6]) < 256
    ensures Decode(s) == Rgba(255, HexValue(s[0..2]), HexValue(s[2..4]), HexValue(s[4..6]))
  {
    DecodeOfSixDigits(s);
    SixDigitValue(s);
    SplitBytes(HexValue(s), HexValue(s[0..2]), HexValue(s[2..4]), HexValue(s[4..6]));
  }

  /** Upper-case form of a string of hexadecimal digits. */
  function UpperCase(s: string): (u: string)
    requires AllHex(s)
    ensures |u| == |s|
  {
    seq(|s|, i requires 0 <= i < |s| => ToUpper(s[i]))
  }

  /** `%02X` of the value of two digits prints those digits in upper case. */
  lemma ByteOfPair(s: string)
    requires |s| == 2 && AllHex(s)
    ensures HexValue(s) < 256
    ensures Byte(HexValue(s)) == UpperCase(s)
  {
    HexValueOfPair(s);
    var v, d0, d1 := HexValue(s), DigitValue(s[0]), DigitValue(s[1]);
    assert v < 256 && v / 16 == d0 && v % 16 == d1 by {
      SplitNibbles(d0, d1);
    }
    DigitRoundTrip(s[0]);
    DigitRoundTrip(s[1]);
    assert Byte(v) == [UpperDigit(d0), UpperDigit(d1)];
    assert UpperCase(s) == [ToUpper(s[0]), ToUpper(s[1])];
  }

  lemma SplitNibbles(d0: nat, d1: nat)
    requires d0 < 16 && d1 < 16
    ensures 16 * d0 + d1 < 256
    ensures (16 * d0 + d1) / 16 == d0 && (16 * d0 + d1) % 16 == d1
  {
    Div16(d0, d1);
  }

  /**
   * Decoding six digits and printing the channels again gives back the digits,
   * in upper case.
   */
  lemma {:induction false} SixDigitRoundTrip(s: string)
    requires |s| == 6 && AllHex(s)
    ensures HexString(Decode(s)) == UpperCase(s)
  {
    DecodeSix(s);
    ByteOfPair(s[0..2]);
    ByteOfPair(s[2..4]);
    ByteOfPair(s[4..6]);
    var u := UpperCase(s);
    assert u == UpperCase(s[0..2]) + UpperCase(s[2..4]) + UpperCase(s[4..6]);
  }

  /** For an upper-case code the round trip is the identity. */
  lemma UpperSixDigitRoundTrip(s: string)
    requires |s| == 6 && AllUpperHex(s)
    ensures HexString(Decode(s)) == s
  {
    SixDigitRoundTrip(s);
    assert UpperCase(s) == s;
  }

  /** `%02X` of a channel reads back as that channel. */
  lemma ByteValue(v: Channel)
    ensures AllHex(Byte(v)) && HexValue(Byte(v)) == v
  {
    var b := Byte(v);
    HexValueOfPair(b);
    UpperDigitRoundTrip(v / 16);
    UpperDigitRoundTrip(v % 16);
  }

  lemma SplitThreeNibbles(v: nat, d0: nat, d1: nat, d2: nat)
    requires d0 < 16 && d1 < 16 && d2 < 16 && v == 256 * d0 + 16 * d1 + d2
    ensures v / 256 == d0 && (v / 16) % 16 == d1 && v % 16 == d2
  {
    assert v == 16 * (16 * d0 + d1) + d2;
    Div16(16 * d0 + d1, d2);
    Div16(d0, d1);
    assert v == 256 * d0 + (16 * d1 + d2);
    Div256(d0, 16 * d1 + d2);
  }

  /** Three digits denote their values, most significant first. */
  lemma ThreeDigitValue(t: string)
    requires |t| == 3 && AllHex(t)
    ensures HexValue(t) == 256 * DigitValue(t[0]) + 16 * DigitValue(t[1]) + DigitValue(t[2])
  {
    HexValueOfPair(t[..2]);
    assert t[..2][0] == t[0] && t[..2][1] == t[1];
    assert t[..|t| - 1] == t[..2];
  }

  /** Three digits are decoded as one number whose nibbles are widened to bytes. */
  lemma DecodeOfThreeDigits(hex: string)
    requires |Trim(hex)| == 3 && AllHex(Trim(hex))
    ensures HexValue(Trim(hex)) < 4096
    ensures var v := HexValue(Trim(hex));
      Decode(hex) == Rgba(255, (v / 256) * 17, ((v / 16) % 16) * 17, (v % 16) * 17)
  {
    var t := Trim(hex);
    ScanOfDigits(t);
    HexValueBound(t);
    assert Pow16(3) == 4096;
  }

  /** Reading three digits: each channel is its digit's value times 17, and the colour is opaque. */
  lemma DecodeThree(hex: string)
    requires |Trim(hex)| == 3 && AllHex(Trim(hex))
    ensures var t := Trim(hex);
      Decode(hex) == Rgba(255, 17 * DigitValue(t[0]), 17 * DigitValue(t[1]), 17 * DigitValue(t[2]))
  {
    var t := Trim(hex);
    DecodeOfThreeDigits(hex);
    ThreeDigitValue(t);
    SplitThreeNibbles(HexValue(t), DigitValue(t[0]), DigitValue(t[1]), DigitValue(t[2]));
  }

  /** Eight digits denote their four pairs' values, most significant first. */
  lemma {:induction false} EightDigitValue(s: string)
    requires |s| == 8 && AllHex(s)
    ensures HexValue(s[0..2]) < 256
    ensures HexValue(s) == 16777216 * HexValue(s[0..2]) + HexValue(s[2..8])
  {
    var p0, rest := s[0..2], s[2..8];
    HexValueBound(p0);
    assert Pow16(2) == 256;
    assert Pow16(6) == 16777216;
    HexValueAppend(p0, rest);
    assert p0 + rest == s;
  }

  lemma SplitFourBytes(v: nat, p0: nat, p1: nat, p2: nat, p3: nat)
    requires p0 < 256 && p1 < 256 && p2 < 256 && p3 < 256
    requires v == 16777216 * p0 + 65536 * p1 + 256 * p2 + p3
    ensures v / 16777216 == p0 && (v / 65536) % 256 == p1 && (v / 256) % 256 == p2 && v % 256 == p3
  {
    assert v == 256 * (65536 * p0 + 256 * p1 + p2) + p3;
    Div256(65536 * p0 + 256 * p1 + p2, p3);
    assert 65536 * p0 + 256 * p1 + p2 == 256 * (256 * p0 + p1) + p2;
    Div256(256 * p0 + p1, p2);
    assert v == 65536 * (256 * p0 + p1) + (256 * p2 + p3);
    Div65536(256 * p0 + p1, 256 * p2 + p3);
    Div256(p0, p1);
    assert v == 16777216 * p0 + (65536 * p1 + 256 * p2 + p3);
    Div16777216(p0, 65536 * p1 + 256 * p2 + p3);
  }

  /** Eight digits are decoded as one AARRGGBB number. */
  lemma DecodeOfEightDigits(hex: string)
    requires |Trim(hex)| == 8 && AllHex(Trim(hex))
    ensures HexValue(Trim(hex)) < 4294967296
    ensures var v := HexValue(Trim(hex));
      Decode(hex) == Rgba(v / 16777216, (v / 65536) % 256, (v / 256) % 256, v % 256)
  {
    var t := Trim(hex);
    ScanOfDigits(t);
    HexValueBound(t);
    assert Pow16(8) == 4294967296;
    var v := ScanHex(t);
    assert Decode(hex) == Rgba(v / 16777216, (v / 65536) % 256, (v / 256) % 256, v % 256);
  }

  /** The four byte fields of eight digits' value are the values of the four digit pairs. */
  lemma {:induction false} PairsOfEight(t: string)
    requires |t| == 8 && AllHex(t)
    ensures HexValue(t[0..2]) < 256 && HexValue(t[2..4]) < 256 && HexValue(t[4..6]) < 256 && HexValue(t[6..8]) < 256
    ensures var v := HexValue(t);
      v / 16777216 == HexValue(t[0..2]) && (v / 65536) % 256 == HexValue(t[2..4]) &&
      (v / 256) % 256 == HexValue(t[4..6]) && v % 256 == HexValue(t[6..8])
  {
    EightDigitValue(t);
    var rest := t[2..8];
    SixDigitValue(rest);
    assert rest[0..2] == t[2..4];
    assert rest[2..4] == t[4..6];
    assert rest[4..6] == t[6..8];
    var p0, p1, p2, p3 := HexValue(t[0..2]), HexValue(t[2..4]), HexValue(t[4..6]), HexValue(t[6..8]);
    assert HexValue(t) == 16777216 * p0 + 65536 * p1 + 256 * p2 + p3;
    SplitFourBytes(HexValue(t), p0, p1, p2, p3);
  }

  /** Reading eight digits: alpha, red, green and blue are the values of the four digit pairs. */
  lemma DecodeEight(hex: string)
    requires |Trim(hex)| == 8 && AllHex(Trim(hex))
    ensures var t := Trim(hex);
      HexValue(t[0..2]) < 256 && HexValue(t[2..4]) < 256 && HexValue(t[4..6]) < 256 && HexValue(t[6..8]) < 256 &&
      Decode(hex) == Rgba(HexValue(t[0..2]), HexValue(t[2..4]), HexValue(t[4..6]), HexValue(t[6..8]))
  {
    DecodeOfEightDigits(hex);
    PairsOfEight(Trim(hex));
  }

  /** Printing any colour and decoding the result gives the colour back. */
  lemma {:induction false} EncodeRoundTrip(c: Rgba)
    ensures Decode(HexString(c)) == c
  {
    if c.a == 255 {
      OpaqueEncodeRoundTrip(c);
    } else {
      var s := HexString(c);
      TrimOfDigits(s);
      DecodeEight(s);
      assert s[0..2] == Byte(c.a) && s[2..4] == Byte(c.r) && s[4..6] == Byte(c.g) && s[6..8] == Byte(c.b);
      ByteValue(c.a);
      ByteValue(c.r);
      ByteValue(c.g);
      ByteValue(c.b);
    }
  }

  /** Printing an opaque colour and decoding the result gives the colour back. */
  lemma {:induction false} OpaqueEncodeRoundTrip(c: Rgba)
    requires c.a == 255
    ensures Decode(HexString(c)) == c
  {
    var s := HexString(c);
    assert AllHex(s);
    DecodeSix(s);
    assert s[0..2] == Byte(c.r) && s[2..4] == Byte(c.g) && s[4..6] == Byte(c.b);
    ByteValue(c.r);
    ByteValue(c.g);
    ByteValue(c.b);
  }
}
