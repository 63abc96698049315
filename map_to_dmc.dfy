/** Mapping colours to the nearest DMC thread by euclidean RGB distance.
    The colour parser and printer `hexToRgb`/`rgbToHex` are `Hex.HexToRgb`
    and `Hex.RgbToHex`. */
module MapToDmc {
  import opened Pixels
  import opened Select
  import opened Hex
  import opened DmcColors

  /** A colour as `colorDistance` accepts it: an `{r, g, b}` object or an
      `[r, g, b]` array. */
  datatype ColorValue = Object(r: int, g: int, b: int) | Array(items: seq<int>)

  predicate WellFormed(c: ColorValue)
  {
    c.Array? ==> |c.items| >= 3
  }

  /** The three channels: the `r`, `g`, `b` fields when present, otherwise
      the first three items. */
  function Channels(c: ColorValue): (int, int, int)
    requires WellFormed(c)
  {
    match c
    case Object(r, g, b) => (r, g, b)
    case Array(items) => (items[0], items[1], items[2])
  }

  /** The square of colorDistance.  `Math.sqrt` is increasing and, for the
      integer sums here, keeps distinct sums apart, so comparing squares
      makes the same choices as comparing distances. */
  function Distance2(c1: ColorValue, c2: ColorValue): (d: int)
    requires WellFormed(c1) && WellFormed(c2)
    ensures d >= 0
  {
    var (r1, g1, b1) := Channels(c1);
    var (r2, g2, b2) := Channels(c2);
    Square(r1 - r2) + Square(g1 - g2) + Square(b1 - b2)
  }

  /** colorDistance is symmetric. */
  lemma DistanceSymmetric(c1: ColorValue, c2: ColorValue)
    requires WellFormed(c1) && WellFormed(c2)
    ensures Distance2(c1, c2) == Distance2(c2, c1)
  {
    var (r1, g1, b1) := Channels(c1);
    var (r2, g2, b2) := Channels(c2);
    SquareNeg(r1 - r2);
    SquareNeg(g1 - g2);
    SquareNeg(b1 - b2);
  }

  lemma SquareNeg(v: int)
    ensures Square(-v) == Square(v)
  {
  }

  /** The distance is zero exactly when the channels agree. */
  lemma DistanceZeroIff(c1: ColorValue, c2: ColorValue)
    requires WellFormed(c1) && WellFormed(c2)
    ensures Distance2(c1, c2) == 0 <==> Channels(c1) == Channels(c2)
  {
    var (r1, g1, b1) := Channels(c1);
    var (r2, g2, b2) := Channels(c2);
    assert Square(r1 - r2) >= 0 && Square(g1 - g2) >= 0 && Square(b1 - b2) >= 0;
  }

  /** The object and the array form of a colour are at the same distance
      from anything. */
  lemma ObjectArrayAlike(r: int, g: int, b: int, rest: seq<int>, other: ColorValue)
    requires WellFormed(other)
    ensures Distance2(Object(r, g, b), other) == Distance2(Array([r, g, b] + rest), other)
    ensures Distance2(other, Object(r, g, b)) == Distance2(other, Array([r, g, b] + rest))
  {
    assert Channels(Array([r, g, b] + rest)) == (r, g, b);
  }

  /** `{ name, hex, rgb: hexToRgb(hex) }`. */
  datatype Match = Match(name: string, hex: string, rgb: (byte, byte, byte))

  /** Every palette colour as a match; every hex string parses. */
  function Palette(): (ms: seq<Match>)
    ensures |ms| == |Colors| > 0
    ensures forall i :: 0 <= i < |ms| ==>
      ms[i].name == Colors[i].0 && ms[i].hex == Colors[i].1
      && HexToRgb(Colors[i].1) == Some(ms[i].rgb)
  {
    ColorsWellFormed();
    seq(|Colors|, i requires 0 <= i < |Colors| =>
      assert IsColorSyntax(Colors[i].1);
      Match(Colors[i].0, Colors[i].1, HexToRgb(Colors[i].1).value))
  }

  function RgbValue(rgb: (byte, byte, byte)): ColorValue
  {
    Object(rgb.0, rgb.1, rgb.2)
  }

  /** The distance from the input colour to a palette match. */
  function DistanceTo(input: ColorValue): Match -> real
    requires WellFormed(input)
  {
    (m: Match) => Distance2(input, RgbValue(m.rgb)) as real
  }

  /** The match mapColorToDMC ends on: the first palette colour at the
      least distance. */
  function NearestDmc(input: ColorValue): (m: Match)
    requires WellFormed(input)
    ensures m in Palette()
    ensures forall k :: 0 <= k < |Palette()| ==>
      Distance2(input, RgbValue(m.rgb)) <= Distance2(input, RgbValue(Palette()[k].rgb))
    ensures exists i :: IsFirstMin(Distances(Palette(), DistanceTo(input)), i) && m == Palette()[i]
  {
    var m := Nearest(Palette(), DistanceTo(input));
    assert forall k :: 0 <= k < |Palette()| ==> DistanceTo(input)(m) <= DistanceTo(input)(Palette()[k]);
    m
  }

  /** mapColorToDMC: the `forEach` over the palette keeps the running
      minimum, replaced only on a strictly smaller distance. */
  method MapColorToDmc(input: ColorValue) returns (closest: Match)
    requires WellFormed(input)
    ensures closest == NearestDmc(input)
  {
    var palette := Palette();
    var best := ClosestIndex(palette, DistanceTo(input));
    NearestAt(palette, DistanceTo(input), best);
    closest := palette[best];
  }

  /** A palette colour maps to a match of the same colour. */
  lemma PaletteColorIsExact(k: nat)
    requires k < |Palette()|
    ensures NearestDmc(RgbValue(Palette()[k].rgb)).rgb == Palette()[k].rgb
  {
    var input := RgbValue(Palette()[k].rgb);
    var m := NearestDmc(input);
    assert Distance2(input, input) == 0;
    DistanceZeroIff(input, RgbValue(m.rgb));
  }

  /** `Array.isArray(color) ? { r: color[0], g: color[1], b: color[2] } :
      color`. */
  function AsObject(c: ColorValue): (o: ColorValue)
    requires WellFormed(c)
    ensures o.Object? && Channels(o) == Channels(c)
  {
    match c
    case Object(_, _, _) => c
    case Array(items) => Object(items[0], items[1], items[2])
  }

  /** mapColorsToDMC: one nearest match per colour, in input order. */
  function MapColorsToDmc(colors: seq<ColorValue>): (ms: seq<Match>)
    requires forall i :: 0 <= i < |colors| ==> WellFormed(colors[i])
    ensures |ms| == |colors|
    ensures forall i :: 0 <= i < |colors| ==> ms[i] == NearestDmc(AsObject(colors[i]))
  {
    seq(|colors|, i requires 0 <= i < |colors| => NearestDmc(AsObject(colors[i])))
  }

  /** Converting an array to an object does not change the match. */
  lemma AsObjectSameMatch(c: ColorValue)
    requires WellFormed(c)
    ensures NearestDmc(AsObject(c)) == NearestDmc(c)
  {
    var o := AsObject(c);
    var ms := Palette();
    forall i | 0 <= i < |ms|
      ensures DistanceTo(o)(ms[i]) == DistanceTo(c)(ms[i])
    {
      SameChannelsSameDistance(o, c, RgbValue(ms[i].rgb));
    }
    NearestSameDistances(ms, DistanceTo(o), DistanceTo(c));
  }

  /** Colours with the same channels are at the same distance from any
      colour. */
  lemma SameChannelsSameDistance(c1: ColorValue, c2: ColorValue, other: ColorValue)
    requires WellFormed(c1) && WellFormed(c2) && WellFormed(other) && Channels(c1) == Channels(c2)
    ensures Distance2(c1, other) == Distance2(c2, other)
  {
  }
}
