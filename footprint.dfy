/** The source rectangles of the area resamplers.  Target pixel `(x, y)`
    of a `tw` by `th` image made from a `sw` by `sh` source covers the
    source pixels from `x * sw / tw` across and from `y * sh / th` down;
    the resamplers differ in where the rectangle ends. */
module Footprints {
  import opened Pixels
  import opened Raster

  /** The source rectangle of target pixel `(x, y)`:
      `[floor(x * sx), min(ceil((x + 1) * sx), sw))` across and likewise
      down, with `sx = sw / tw` and `sy = sh / th`. */
  function Footprint(sw: nat, sh: nat, tw: nat, th: nat): (int, int) -> Rect
  {
    (x: int, y: int) =>
      if tw > 0 && th > 0
      then Rect(x * sw / tw, Min(CeilDiv((x + 1) * sw, tw), sw),
                y * sh / th, Min(CeilDiv((y + 1) * sh, th), sh))
      else Rect(0, 0, 0, 0)
  }

  /** `(a * s / t).Floor` is the integer quotient, however the product is
      grouped; `a * (s / t)` is what the source computes with `scale = s / t`. */
  lemma ScaledQuotient(a: nat, s: nat, t: nat)
    requires t > 0
    ensures a as real * (s as real / t as real) == (a * s) as real / t as real
  {
  }

  /** The ceiling of `n / t` is CeilDiv. */
  lemma CeilOfQuotient(n: int, t: int)
    requires t > 0
    ensures (CeilDiv(n, t) - 1) as real < n as real / t as real <= CeilDiv(n, t) as real
  {
    var c := CeilDiv(n, t);
    assert (t * (c - 1)) as real == t as real * (c - 1) as real;
    assert (t * c) as real == t as real * c as real;
    RealDivBounds(n as real, t as real, (c - 1) as real, c as real);
  }

  lemma RealDivBounds(n: real, t: real, lo: real, hi: real)
    requires t > 0.0 && t * lo < n <= t * hi
    ensures lo < n / t <= hi
  {
    assert n / t * t == n;
  }

  /** The footprint's ends are `Math.floor(x * scale)` and
      `Math.ceil((x + 1) * scale)` capped at the source size. */
  lemma FootprintIsScaled(sw: nat, sh: nat, tw: nat, th: nat, x: nat, y: nat)
    requires tw > 0 && th > 0
    ensures var r := Footprint(sw, sh, tw, th)(x, y);
      var sx, sy := sw as real / tw as real, sh as real / th as real;
      r.x0 == (x as real * sx).Floor && r.y0 == (y as real * sy).Floor &&
      (r.x1 == sw || (r.x1 - 1) as real < (x + 1) as real * sx <= r.x1 as real) &&
      (r.y1 == sh || (r.y1 - 1) as real < (y + 1) as real * sy <= r.y1 as real)
  {
    SideIsScaled(sw, tw, x);
    SideIsScaled(sh, th, y);
  }

  /** One side of FootprintIsScaled. */
  lemma SideIsScaled(s: nat, t: nat, x: nat)
    requires t > 0
    ensures var sc, hi := s as real / t as real, Min(CeilDiv((x + 1) * s, t), s);
      x * s / t == (x as real * sc).Floor &&
      (hi == s || (hi - 1) as real < (x + 1) as real * sc <= hi as real)
  {
    ScaledQuotient(x, s, t);
    FloorOfQuotient(x * s, t);
    ScaledQuotient(x + 1, s, t);
    CeilOfQuotient((x + 1) * s, t);
  }

  /** For `0 <= x < tw` each footprint lies inside the source, and it is
      not empty when the source is not. */
  lemma FootprintInSource(sw: nat, sh: nat, tw: nat, th: nat, x: int, y: int)
    requires 0 <= x < tw && 0 <= y < th
    ensures var r := Footprint(sw, sh, tw, th)(x, y);
      0 <= r.x0 && r.x1 <= sw && 0 <= r.y0 && r.y1 <= sh &&
      (sw > 0 ==> r.x0 < r.x1) && (sh > 0 ==> r.y0 < r.y1)
  {
    FootprintSide(sw, tw, x);
    FootprintSide(sh, th, y);
  }

  /** One side of a footprint. */
  lemma FootprintSide(s: nat, t: nat, x: int)
    requires 0 <= x < t
    ensures 0 <= x * s / t && Min(CeilDiv((x + 1) * s, t), s) <= s
    ensures s > 0 ==> x * s / t < Min(CeilDiv((x + 1) * s, t), s)
  {
    var n := x * s;
    var f := n / t;
    QuotientBounds(n, t);
    assert (x + 1) * s == n + s;
    var c := CeilDiv(n + s, t);
    if s > 0 {
      LtFromMul(t, f, c);
      MulLe(x, t - 1, s);
      assert (t - 1) * s == t * s - s;
      LtFromMul(t, f, s);
    }
  }

  lemma QuotientBounds(n: nat, t: int)
    requires t > 0
    ensures 0 <= n / t && t * (n / t) <= n < t * (n / t) + t
  {
  }

  lemma RectCellsNonEmpty(r: Rect)
    requires r.x0 < r.x1 && r.y0 < r.y1
    ensures |RectCells(r)| > 0
  {
    assert |RowCells(r.y1 - 1, r.x0, r.x1)| > 0;
  }

  /** The number of cells of a rectangle is its area. */
  lemma {:induction false} RectCellsLength(r: Rect)
    requires r.x0 <= r.x1
    ensures |RectCells(r)| == if r.y1 <= r.y0 then 0 else (r.x1 - r.x0) * (r.y1 - r.y0)
    decreases r.y1 - r.y0
  {
    if r.y1 > r.y0 {
      var s := r.(y1 := r.y1 - 1);
      RectCellsLength(s);
      assert (r.x1 - r.x0) * (r.y1 - r.y0) == (r.x1 - r.x0) * (s.y1 - s.y0) + (r.x1 - r.x0);
    }
  }

  /** The block of the reduction stage of the PCStitch-style algorithm:
      `[floor(x * bw), floor((x + 1) * bw))` across and likewise down, with
      `bw = sw / tw`, `bh = sh / th` and no capping at the source size. */
  function BlockFootprint(sw: nat, sh: nat, tw: nat, th: nat): (int, int) -> Rect
  {
    (x: int, y: int) =>
      if tw > 0 && th > 0
      then Rect(x * sw / tw, (x + 1) * sw / tw, y * sh / th, (y + 1) * sh / th)
      else Rect(0, 0, 0, 0)
  }

  /** The block's ends are `Math.floor(x * bw)` and `Math.floor((x + 1) * bw)`. */
  lemma BlockFootprintIsScaled(sw: nat, sh: nat, tw: nat, th: nat, x: nat, y: nat)
    requires tw > 0 && th > 0
    ensures var r := BlockFootprint(sw, sh, tw, th)(x, y);
      var bw, bh := sw as real / tw as real, sh as real / th as real;
      r.x0 == (x as real * bw).Floor && r.x1 == ((x + 1) as real * bw).Floor &&
      r.y0 == (y as real * bh).Floor && r.y1 == ((y + 1) as real * bh).Floor
  {
    ScaledQuotient(x, sw, tw);
    FloorOfQuotient(x * sw, tw);
    ScaledQuotient(x + 1, sw, tw);
    FloorOfQuotient((x + 1) * sw, tw);
    ScaledQuotient(y, sh, th);
    FloorOfQuotient(y * sh, th);
    ScaledQuotient(y + 1, sh, th);
    FloorOfQuotient((y + 1) * sh, th);
  }

  /** For `0 <= x < tw` a block lies inside the source even without the
      cap. */
  lemma BlockFootprintInSource(sw: nat, sh: nat, tw: nat, th: nat, x: int, y: int)
    requires 0 <= x < tw && 0 <= y < th
    ensures var r := BlockFootprint(sw, sh, tw, th)(x, y);
      0 <= r.x0 <= r.x1 <= sw && 0 <= r.y0 <= r.y1 <= sh
  {
    BlockSide(sw, tw, x);
    BlockSide(sh, th, y);
  }

  lemma BlockSide(s: nat, t: nat, x: int)
    requires 0 <= x < t
    ensures 0 <= x * s / t <= (x + 1) * s / t <= s
  {
    MulLe(x, x + 1, s);
    MulLe(x + 1, t, s);
    QuotientBounds(x * s, t);
    DivMono(x * s, (x + 1) * s, t);
    DivMono((x + 1) * s, t * s, t);
    MulDiv(s, t);
  }

  /** Integer division by a positive number is monotone. */
  lemma DivMono(a: int, b: int, t: int)
    requires a <= b && t > 0
    ensures a / t <= b / t
  {
    var p, q := a / t, b / t;
    assert t * p <= a && b < t * q + t;
    if p > q {
      MulLe(q + 1, p, t);
    }
  }

  lemma MulDiv(s: int, t: int)
    requires t > 0
    ensures t * s / t == s
  {
    var q := t * s / t;
    assert t * q <= t * s < t * q + t;
    assert t * (q - s) == t * q - t * s;
    assert t * (s - q - 1) == t * s - t * q - t;
    PositiveFactor(t, q - s);
    PositiveFactor(t, s - q - 1);
  }

  /** With a source four times the target in each direction, as the
      PCStitch-style pipeline reduces its supersampled image, every block is
      the 4 by 4 square at `(4x, 4y)`: 16 source pixels. */
  lemma BlocksOfFour(tw: nat, th: nat, x: int, y: int)
    requires 0 <= x < tw && 0 <= y < th
    ensures BlockFootprint(4 * tw, 4 * th, tw, th)(x, y) == Rect(4 * x, 4 * x + 4, 4 * y, 4 * y + 4)
    ensures |RectCells(BlockFootprint(4 * tw, 4 * th, tw, th)(x, y))| == 16
  {
    assert x * (4 * tw) == tw * (4 * x);
    assert (x + 1) * (4 * tw) == tw * (4 * x + 4);
    assert y * (4 * th) == th * (4 * y);
    assert (y + 1) * (4 * th) == th * (4 * y + 4);
    MulDiv(4 * x, tw);
    MulDiv(4 * x + 4, tw);
    MulDiv(4 * y, th);
    MulDiv(4 * y + 4, th);
    var r := Rect(4 * x, 4 * x + 4, 4 * y, 4 * y + 4);
    RectCellsLength(r);
  }
}
