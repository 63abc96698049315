/** Hexadecimal colour strings: `Number.prototype.toString(16)` on
    non-negative integers, the two-digit zero-padded byte form, the
    `"#rrggbb"` colour strings the grid stores, and the
    `/^#?([a-f\d]{2})([a-f\d]{2})([a-f\d]{2})$/i` parser. */
module Hex {
  import opened Pixels

  const Digits: string := "0123456789abcdef"

  predicate IsHexChar(c: char)
  {
    '0' <= c <= '9' || 'a' <= c <= 'f' || 'A' <= c <= 'F'
  }

  /** The value of one hexadecimal digit, either case. */
  function DigitValue(c: char): (v: nat)
    requires IsHexChar(c)
    ensures v < 16
  {
    if '0' <= c <= '9' then c as int - '0' as int
    else if 'a' <= c <= 'f' then c as int - 'a' as int + 10
    else c as int - 'A' as int + 10
  }

  lemma DigitRoundTrip(v: nat)
    requires v < 16
    ensures IsHexChar(Digits[v]) && DigitValue(Digits[v]) == v
  {
  }

  /** `n.toString(16)`: lower-case digits, most significant first, no
      leading zeros. */
  function ToBase16(n: nat): (s: string)
    ensures |s| >= 1
    decreases n
  {
    if n < 16 then [Digits[n]] else ToBase16(n / 16) + [Digits[n % 16]]
  }

  /** A byte as exactly two lower-case digits. */
  function ByteHex(v: byte): (s: string)
    ensures |s| == 2 && IsHexChar(s[0]) && IsHexChar(s[1])
    ensures 16 * DigitValue(s[0]) + DigitValue(s[1]) == v
  {
    DigitRoundTrip(v / 16);
    DigitRoundTrip(v % 16);
    [Digits[v / 16], Digits[v % 16]]
  }

  /** `h.length === 1 ? '0' + h : h` applied to `v.toString(16)` is the
      two-digit form. */
  lemma PaddedBase16(v: byte)
    ensures (var h := ToBase16(v); if |h| == 1 then "0" + h else h) == ByteHex(v)
  {
    if v >= 16 {
      assert ToBase16(v) == ToBase16(v / 16) + [Digits[v % 16]];
      assert ToBase16(v / 16) == [Digits[v / 16]];
    }
  }

  /** `'#'` and two lower-case digits per channel. */
  function ColorHex(r: byte, g: byte, b: byte): (s: string)
    ensures |s| == 7 && s[0] == '#'
  {
    "#" + ByteHex(r) + ByteHex(g) + ByteHex(b)
  }

  /** The decoded value of the digit pair `s[i], s[i+1]`. */
  function PairValue(s: string, i: nat): (v: byte)
    requires i + 1 < |s| && IsHexChar(s[i]) && IsHexChar(s[i + 1])
  {
    16 * DigitValue(s[i]) + DigitValue(s[i + 1])
  }

  /** The strings the colour regular expression accepts: an optional `'#'`
      followed by exactly six hexadecimal digits of either case. */
  predicate IsColorSyntax(s: string)
  {
    (|s| == 7 && s[0] == '#' && forall i :: 1 <= i < 7 ==> IsHexChar(s[i]))
    || (|s| == 6 && forall i :: 0 <= i < 6 ==> IsHexChar(s[i]))
  }

  /** The colour strings the grid and the palettes hold: `'#'` and six
      hexadecimal digits. */
  predicate IsStoredColor(s: string)
  {
    |s| == 7 && s[0] == '#' && forall i :: 1 <= i < 7 ==> IsHexChar(s[i])
  }

  /** hexToRgb: three `parseInt(pair, 16)` values, or null when the string
      is not an optional `'#'` and six hexadecimal digits. */
  function HexToRgb(s: string): (r: Option<(byte, byte, byte)>)
    ensures r.Some? <==> IsColorSyntax(s)
  {
    var body := if |s| > 0 && s[0] == '#' then s[1..] else s;
    if |body| == 6 && forall i :: 0 <= i < 6 ==> IsHexChar(body[i])
    then Some((PairValue(body, 0), PairValue(body, 2), PairValue(body, 4)))
    else None
  }

  /** The pair at `i` decodes to `v` when it is `v`'s two digits. */
  lemma PairOfByte(s: string, i: nat, v: byte)
    requires i + 1 < |s| && s[i] == ByteHex(v)[0] && s[i + 1] == ByteHex(v)[1]
    ensures IsHexChar(s[i]) && IsHexChar(s[i + 1]) && PairValue(s, i) == v
  {
  }

  /** A stored colour decodes to the values of its three digit pairs. */
  lemma StoredColorValue(s: string)
    requires IsStoredColor(s)
    ensures HexToRgb(s) == Some((PairValue(s, 1), PairValue(s, 3), PairValue(s, 5)))
  {
    var body := s[1..];
    assert PairValue(body, 0) == PairValue(s, 1);
    assert PairValue(body, 2) == PairValue(s, 3);
    assert PairValue(body, 4) == PairValue(s, 5);
  }

  /** Decoding a colour string gives back its channels. */
  lemma HexRoundTrip(r: byte, g: byte, b: byte)
    ensures HexToRgb(ColorHex(r, g, b)) == Some((r, g, b))
  {
    var s := ColorHex(r, g, b);
    assert s == "#" + ByteHex(r) + ByteHex(g) + ByteHex(b);
    PairOfByte(s, 1, r);
    PairOfByte(s, 3, g);
    PairOfByte(s, 5, b);
    StoredColorValue(s);
  }

  /** rgbToHex: `((1 << 24) + (r << 16) + (g << 8) + b).toString(16)` without
      its first digit.  For bytes the shifts cannot overflow 32 bits and the
      shifted sum is the nested form below (PackedRgb). */
  function RgbToHex(r: byte, g: byte, b: byte): (s: string)
  {
    "#" + ToBase16(256 * (256 * (256 + r) + g) + b)[1..]
  }

  lemma DivMod16(a: nat, d: nat)
    requires d < 16
    ensures (16 * a + d) / 16 == a && (16 * a + d) % 16 == d
  {
  }

  /** Appending a digit to a number of at least one digit. */
  lemma AppendDigit(q: nat, d: nat)
    requires q >= 1 && d < 16
    ensures ToBase16(16 * q + d) == ToBase16(q) + [Digits[d]]
  {
    DivMod16(q, d);
  }

  /** Appending a byte to a number appends its two digits. */
  lemma AppendByte(q: nat, v: byte)
    requires q >= 1
    ensures ToBase16(256 * q + v) == ToBase16(q) + ByteHex(v)
  {
    var hi, lo := v / 16, v % 16;
    var m := 16 * q + hi;
    assert v == 16 * hi + lo;
    assert 256 * q + v == 16 * m + lo;
    AppendDigit(q, v / 16);
    AppendDigit(m, v % 16);
  }

  /** The five digits of `(1 << 16) + (r << 8) + g`. */
  lemma TwoByteDigits(r: byte, g: byte)
    ensures ToBase16(256 * (256 + r) + g) == ToBase16(1) + ByteHex(r) + ByteHex(g)
  {
    AppendByte(1, r);
    AppendByte(256 + r, g);
  }

  /** The seven digits of `(1 << 24) + (r << 16) + (g << 8) + b`. */
  lemma RgbDigits(r: byte, g: byte, b: byte)
    ensures ToBase16(256 * (256 * (256 + r) + g) + b)
         == ToBase16(1) + ByteHex(r) + ByteHex(g) + ByteHex(b)
  {
    TwoByteDigits(r, g);
    AppendByte(256 * (256 + r) + g, b);
  }

  /** The shifted sum of rgbToHex as products. */
  lemma PackedRgb(r: byte, g: byte, b: byte)
    ensures 256 * (256 * (256 + r) + g) + b == 0x100_0000 + r * 0x1_0000 + g * 0x100 + b
  {
  }

  /** For bytes, rgbToHex is the two-digit-per-channel colour string. */
  lemma RgbToHexIsColorHex(r: byte, g: byte, b: byte)
    ensures RgbToHex(r, g, b) == ColorHex(r, g, b)
  {
    RgbDigits(r, g, b);
    DropLeadingOne(ToBase16(256 * (256 * (256 + r) + g) + b), ByteHex(r) + ByteHex(g) + ByteHex(b));
  }

  /** Dropping the leading `1` digit. */
  lemma DropLeadingOne(digits: string, tail: string)
    requires digits == ToBase16(1) + tail
    ensures digits[1..] == tail
  {
    assert ToBase16(1) == "1";
  }

  /** The output of rgbToHex decodes back to the channels. */
  lemma RgbToHexRoundTrip(r: byte, g: byte, b: byte)
    ensures HexToRgb(RgbToHex(r, g, b)) == Some((r, g, b))
  {
    RgbToHexIsColorHex(r, g, b);
    HexRoundTrip(r, g, b);
  }
}
