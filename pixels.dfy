/** Bytes, RGBA pixels, grid cells and the arithmetic every stage of the
    image pipeline shares.

    A browser `Uint8ClampedArray` holding an image of width `w` and height
    `h` has `4*w*h` bytes, pixel `p = y*w + x` occupying bytes `4p .. 4p+3`
    (red, green, blue, alpha).  The model keeps the same row-major order but
    groups the four bytes of a pixel into one `Rgba` record, so byte `4p+c`
    of the source is `Channel(img[p], c)` here. */
module Pixels {

  type byte = x: int | 0 <= x < 256

  datatype Option<T> = None | Some(value: T)

  datatype Rgba = Rgba(r: byte, g: byte, b: byte, a: byte)

  /** A grid cell; the source serialises it as the object key "x,y". */
  datatype Cell = Cell(x: int, y: int)

  /** A colour without alpha, as the palettes list them. */
  datatype Rgb = Rgb(r: byte, g: byte, b: byte)

  const Transparent := Rgba(0, 0, 0, 0)

  /** Channel `c` of a pixel: 0 red, 1 green, 2 blue, 3 alpha. */
  function Channel(p: Rgba, c: nat): byte
    requires c < 4
  {
    if c == 0 then p.r else if c == 1 then p.g else if c == 2 then p.b else p.a
  }

  /** The pixel with channel `c` replaced by `v`. */
  function WithChannel(p: Rgba, c: nat, v: byte): (q: Rgba)
    requires c < 4
    ensures Channel(q, c) == v
    ensures forall d :: 0 <= d < 4 && d != c ==> Channel(q, d) == Channel(p, d)
  {
    if c == 0 then p.(r := v) else if c == 1 then p.(g := v)
    else if c == 2 then p.(b := v) else p.(a := v)
  }

  /** ToUint8Clamp: what a store of the number `x` into a Uint8ClampedArray
      keeps.  Non-positive values become 0, values of at least 255 become
      255, everything else is rounded to the nearest integer with ties going
      to the even neighbour. */
  function Clamp(x: real): (v: byte)
    ensures x <= 0.0 ==> v == 0
    ensures x >= 255.0 ==> v == 255
    ensures 0.0 <= x <= 255.0 ==> x - 0.5 <= v as real <= x + 0.5
    ensures 0.0 < x < 255.0 && x - x.Floor as real == 0.5 ==> v % 2 == 0
  {
    if x <= 0.0 then 0
    else if x >= 255.0 then 255
    else
      var f := x.Floor;
      var d := x - f as real;
      if d < 0.5 then f
      else if d > 0.5 then f + 1
      else if f % 2 == 0 then f else f + 1
  }

  /** The store of an integer: saturation only. */
  function ClampInt(v: int): (b: byte)
    ensures b == if v < 0 then 0 else if v > 255 then 255 else v
  {
    Clamp(v as real)
  }

  /** JavaScript's Math.round: the nearest integer, halves rounded up. */
  function Round(x: real): (n: int)
    ensures x - 0.5 < n as real <= x + 0.5
  {
    (x + 0.5).Floor
  }

  /** Math.round(n / d) for integers, computed without leaving the integers. */
  function RoundDiv(n: int, d: int): (q: int)
    requires d > 0
    ensures d * (2 * q - 1) <= 2 * n < d * (2 * q + 1)
  {
    (2 * n + d) / (2 * d)
  }

  /** For a positive divisor the floor of the exact quotient is the
      integer quotient. */
  lemma FloorOfQuotient(a: int, b: int)
    requires b > 0
    ensures (a as real / b as real).Floor == a / b
  {
    var q, r := a / b, a % b;
    assert a == q * b + r && 0 <= r < b;
    assert a as real == q as real * b as real + r as real;
    assert a as real / b as real == q as real + r as real / b as real;
    assert 0.0 <= r as real / b as real < 1.0;
  }

  lemma RoundDivIsRound(n: int, d: int)
    requires d > 0
    ensures RoundDiv(n, d) == Round(n as real / d as real)
  {
    var x := n as real / d as real;
    var dd := d as real;
    assert x * dd == n as real;
    assert (x + 0.5) * (2.0 * dd) == 2.0 * n as real + dd;
    var y := (2 * n + d) as real / (2 * d) as real;
    assert y * (2.0 * dd) == 2.0 * n as real + dd;
    CancelMul(x + 0.5, y, 2.0 * dd);
    FloorOfQuotient(2 * n + d, 2 * d);
  }

  /** A rounded quotient of a sum that lies between `lo * d` and `hi * d`
      lies between `lo` and `hi`: the rounded mean of values in a range stays
      in the range. */
  lemma RoundDivBetween(n: int, d: int, lo: int, hi: int)
    requires d > 0 && lo * d <= n <= hi * d
    ensures lo <= RoundDiv(n, d) <= hi
  {
    var q := RoundDiv(n, d);
    assert d * (2 * q - 1 - 2 * hi) == d * (2 * q - 1) - 2 * (hi * d);
    assert d * (2 * lo - 2 * q - 1) == 2 * (lo * d) - d * (2 * q + 1);
    PositiveFactor(d, 2 * q - 1 - 2 * hi);
    PositiveFactor(d, 2 * lo - 2 * q - 1);
  }

  lemma PositiveFactor(d: int, k: int)
    requires d > 0
    ensures d * k <= 0 ==> k <= 0
    ensures d * k < 0 ==> k < 0
  {
  }

  /** `Math.ceil(a / b)` for a positive divisor. */
  function CeilDiv(a: int, b: int): (q: int)
    requires b > 0
    ensures b * (q - 1) < a <= b * q
  {
    var q := (a + b - 1) / b;
    assert a + b - 1 == b * q + (a + b - 1) % b;
    q
  }

  lemma CancelMul(a: real, b: real, c: real)
    requires c != 0.0 && a * c == b * c
    ensures a == b
  {
    assert (a - b) * c == 0.0;
  }

  function Min(a: int, b: int): int
  {
    if a <= b then a else b
  }

  function Abs(v: int): nat
  {
    if v < 0 then -v else v
  }

  function Square(v: int): (s: nat)
    ensures s == 0 <==> v == 0
  {
    v * v
  }

  /** Sum of the absolute channel differences over red, green and blue. */
  function ColorDiff(p: Rgba, q: Rgba): (d: nat)
    ensures d <= 765
  {
    Abs(p.r - q.r) + Abs(p.g - q.g) + Abs(p.b - q.b)
  }

  /** r + g + b: three times the source's `(r + g + b) / 3` brightness. */
  function Intensity(p: Rgba): nat
  {
    p.r + p.g + p.b
  }

  // ---------------------------------------------------------------- geometry

  predicate IsImage<T>(img: seq<T>, w: nat, h: nat)
  {
    |img| == w * h
  }

  predicate InBounds(w: int, h: int, x: int, y: int)
  {
    0 <= x < w && 0 <= y < h
  }

  /** The four side neighbours in the order the contour passes list them:
      left, right, above, below. */
  function Neighbours4(x: int, y: int): seq<Cell>
  {
    [Cell(x - 1, y), Cell(x + 1, y), Cell(x, y - 1), Cell(x, y + 1)]
  }

  /** The eight surrounding cells, column by column: `(dx, dy)` runs through
      (-1,-1), (-1,0), (-1,1), (0,-1), (0,1), (1,-1), (1,0), (1,1). */
  function Neighbours8(x: int, y: int): seq<Cell>
  {
    [Cell(x - 1, y - 1), Cell(x - 1, y), Cell(x - 1, y + 1), Cell(x, y - 1),
     Cell(x, y + 1), Cell(x + 1, y - 1), Cell(x + 1, y), Cell(x + 1, y + 1)]
  }

  /** The eight surrounding cells row by row, as the `dy`-outer, `dx`-inner
      loops that skip the centre visit them. */
  function Ring3(x: int, y: int): seq<Cell>
  {
    [Cell(x - 1, y - 1), Cell(x, y - 1), Cell(x + 1, y - 1), Cell(x - 1, y),
     Cell(x + 1, y), Cell(x - 1, y + 1), Cell(x, y + 1), Cell(x + 1, y + 1)]
  }

  /** The whole 3x3 block row by row, centre included. */
  function Window3(x: int, y: int): (ws: seq<Cell>)
    ensures ws == Ring3(x, y)[..4] + [Cell(x, y)] + Ring3(x, y)[4..]
  {
    [Cell(x - 1, y - 1), Cell(x, y - 1), Cell(x + 1, y - 1), Cell(x - 1, y), Cell(x, y),
     Cell(x + 1, y), Cell(x - 1, y + 1), Cell(x, y + 1), Cell(x + 1, y + 1)]
  }

  /** Not on the first or last row or column. */
  predicate Interior(w: int, h: int, x: int, y: int)
  {
    1 <= x < w - 1 && 1 <= y < h - 1
  }

  lemma IndexInRange(w: nat, h: nat, x: nat, y: nat)
    requires x < w && y < h
    ensures y * w + x < w * h
  {
    assert y * w <= (h - 1) * w;
  }

  lemma PixelCoords(w: nat, x: nat, y: nat)
    requires x < w
    ensures (y * w + x) / w == y && (y * w + x) % w == x
  {
    var p := y * w + x;
    var q, r := p / w, p % w;
    assert p == q * w + r && 0 <= r < w;
    if q > y {
      MulLe(y + 1, q, w);
    } else if q < y {
      MulLe(q + 1, y, w);
    }
  }

  lemma MulLe(a: int, b: int, w: nat)
    requires a <= b
    ensures a * w <= b * w
  {
  }

  /** The coordinates of index `i` of a `w`-wide buffer of `w * h` cells. */
  lemma IndexCoords(w: nat, h: nat, i: nat)
    requires i < w * h
    ensures w > 0 && InBounds(w, h, i % w, i / w) && i == (i / w) * w + i % w
  {
    assert w > 0;
    if i / w >= h {
      MulLe(h, i / w, w);
    }
  }

  /** The neighbours that exist have indices inside the image. */
  lemma NeighbourIndex(w: nat, h: nat, i: nat)
    requires 0 < w && i < w * h
    ensures i % w + 1 < w ==> i + 1 < w * h
    ensures i / w + 1 < h ==> i + w < w * h
    ensures i / w + 1 < h && i % w + 1 < w ==> i + w + 1 < w * h
  {
    IndexCoords(w, h, i);
    var x, y := i % w, i / w;
    if y + 1 < h {
      assert (y + 1) * w == y * w + w;
      IndexInRange(w, h, x, y + 1);
      if x + 1 < w {
        IndexInRange(w, h, x + 1, y + 1);
      }
    }
  }

  /** An index names cell `(cx, cy)` exactly when it is `cy * w + cx`. */
  lemma CellIndex(w: nat, cx: nat, cy: nat, k: nat)
    requires cx < w
    ensures k == cy * w + cx <==> k % w == cx && k / w == cy
  {
    PixelCoords(w, cx, cy);
    assert k == (k / w) * w + k % w;
  }

  /** The four receiving indices are the cells right, lower-left, lower and
      lower-right of pixel `i`. */
  lemma Receivers(w: nat, h: nat, i: nat, k: nat)
    requires i < w * h
    ensures var x, y, kx, ky := i % w, i / w, k % w, k / w;
      (x + 1 < w ==> (k == i + 1 <==> ky == y && kx == x + 1)) &&
      (x >= 1 ==> (k == i + w - 1 <==> ky == y + 1 && kx == x - 1)) &&
      (k == i + w <==> ky == y + 1 && kx == x) &&
      (x + 1 < w ==> (k == i + w + 1 <==> ky == y + 1 && kx == x + 1))
  {
    IndexCoords(w, h, i);
    var x, y := i % w, i / w;
    assert (y + 1) * w == y * w + w;
    if x + 1 < w {
      CellIndex(w, x + 1, y, k);
      CellIndex(w, x + 1, y + 1, k);
    }
    if x >= 1 {
      CellIndex(w, x - 1, y + 1, k);
    }
    CellIndex(w, x, y + 1, k);
  }

  /** Products by a positive factor keep strict order. */
  lemma LtFromMul(t: int, a: int, b: int)
    requires t > 0 && t * a < t * b
    ensures a < b
  {
    assert t * (a - b) == t * a - t * b;
    PositiveFactor(t, a - b);
  }

  /** Pixel `(x, y)` of a row-major image. */
  function At<T>(img: seq<T>, w: nat, h: nat, x: int, y: int): T
    requires IsImage(img, w, h) && InBounds(w, h, x, y)
  {
    IndexInRange(w, h, x, y);
    img[y * w + x]
  }

  /** The pixel at index `p` in terms of its coordinates. */
  lemma AtIndex<T>(img: seq<T>, w: nat, h: nat, p: nat)
    requires IsImage(img, w, h) && p < |img|
    ensures w > 0 && InBounds(w, h, p % w, p / w)
    ensures p == (p / w) * w + p % w
    ensures At(img, w, h, p % w, p / w) == img[p]
  {
    assert w > 0;
    if p / w >= h {
      MulLe(h, p / w, w);
    }
  }
}
