/** The PCStitch-style conversion: the block reduction of a supersampled
    image with a dominant-pixel override, the gradient helpers of its
    feature pass, and its final cross-shaped sharpen. */
module Pcstitch {
  import opened Pixels
  import opened Raster
  import opened Footprints
  import opened Dominant
  import opened Sharpen

  // ------------------------------------------------------------ gradients

  /** The summed channel differences `(p.r - q.r) + (p.g - q.g) + (p.b - q.b)`. */
  function SideDiff(p: Rgba, q: Rgba): (d: int)
    ensures d == Intensity(p) - Intensity(q)
  {
    (p.r - q.r) + (p.g - q.g) + (p.b - q.b)
  }

  /** getGradientX: right neighbour against left neighbour. */
  function GradientX(img: seq<Rgba>, w: nat, h: nat, x: int, y: int): int
  {
    SideDiff(Get(img, w, h, x + 1, y), Get(img, w, h, x - 1, y))
  }

  /** getGradientY: lower neighbour against upper neighbour. */
  function GradientY(img: seq<Rgba>, w: nat, h: nat, x: int, y: int): int
  {
    SideDiff(Get(img, w, h, x, y + 1), Get(img, w, h, x, y - 1))
  }

  /** Swapping the two sides negates the difference. */
  lemma SideDiffAntisymmetric(p: Rgba, q: Rgba)
    ensures SideDiff(q, p) == -SideDiff(p, q)
    ensures SideDiff(p, p) == 0
  {
  }

  /** Swapping the left and right neighbours negates the horizontal
      gradient and leaves the vertical one: an image whose neighbours of
      `(x, y)` are those of another image around `(xr, y)`, left and right
      exchanged, as in a left-to-right reflection. */
  lemma SwappedGradients(m: seq<Rgba>, img: seq<Rgba>, w: nat, h: nat, x: int, y: int, xr: int)
    requires Get(m, w, h, x + 1, y) == Get(img, w, h, xr - 1, y)
    requires Get(m, w, h, x - 1, y) == Get(img, w, h, xr + 1, y)
    requires Get(m, w, h, x, y + 1) == Get(img, w, h, xr, y + 1)
    requires Get(m, w, h, x, y - 1) == Get(img, w, h, xr, y - 1)
    ensures GradientX(m, w, h, x, y) == -GradientX(img, w, h, xr, y)
    ensures GradientY(m, w, h, x, y) == GradientY(img, w, h, xr, y)
  {
  }

  // ------------------------------------------------------------ reduction

  function Brightness(src: seq<Rgba>, sw: nat, sh: nat): (int, int) -> int
  {
    (x: int, y: int) => Intensity(Get(src, sw, sh, x, y))
  }

  /** `maxIntensity > (r + g + b) / count * 1.5`, scaled to integers. */
  predicate PcDominates(t: Tally)
  {
    2 * t.best * t.count > 3 * (t.r + t.g + t.b)
  }

  function BlockTally(src: seq<Rgba>, sw: nat, sh: nat, tw: nat, th: nat, x: int, y: int): Tally
  {
    Fold(RectCells(BlockFootprint(sw, sh, tw, th)(x, y)), Start, Tallier(src, sw, sh, Brightness(src, sw, sh)))
  }

  function ReducedAt(src: seq<Rgba>, sw: nat, sh: nat, tw: nat, th: nat, x: int, y: int): Rgba
  {
    Emit(PcDominates)(BlockTally(src, sw, sh, tw, th, x, y))
  }

  /** intelligentReduction. */
  method IntelligentReduction(src: seq<Rgba>, sw: nat, sh: nat, tw: nat, th: nat) returns (out: seq<Rgba>)
    ensures |out| == tw * th
    ensures forall p :: 0 <= p < |out| ==> out[p] == ReducedAt(src, sw, sh, tw, th, p % tw, p / tw)
  {
    out := Resample(tw, th, BlockFootprint(sw, sh, tw, th), Start,
                    Tallier(src, sw, sh, Brightness(src, sw, sh)), Emit(PcDominates));
  }

  /** The integer criterion is the source's comparison with the 1.5 ratio. */
  lemma PcCriterion(t: Tally)
    requires t.count > 0
    ensures PcDominates(t)
        <==> t.best as real > ((t.r + t.g + t.b) as real / t.count as real) * (3 as real / 2 as real)
  {
    RatioTest(t.best, t.r + t.g + t.b, t.count, 3, 2);
  }

  /** A reduced pixel counts every pixel of its block, and is the block's
      first brightest pixel when the criterion holds and the rounded means
      otherwise. */
  lemma {:induction false} ReducedPixel(src: seq<Rgba>, sw: nat, sh: nat, tw: nat, th: nat, x: int, y: int)
    requires 0 <= x < tw && 0 <= y < th
    ensures var r := BlockFootprint(sw, sh, tw, th)(x, y);
      var cs := RectCells(r);
      var t := BlockTally(src, sw, sh, tw, th, x, y);
      var q := ReducedAt(src, sw, sh, tw, th, x, y);
      t.count == |cs| == (r.x1 - r.x0) * (r.y1 - r.y0)
      && (PcDominates(t) ==> exists i :: IsFirstMax(Scores(cs, Brightness(src, sw, sh)), i)
                                         && q == Get(src, sw, sh, cs[i].x, cs[i].y))
      && (!PcDominates(t) ==> q == Mean(t))
  {
    var r := BlockFootprint(sw, sh, tw, th)(x, y);
    BlockArea(sw, sh, tw, th, x, y);
    var cs := RectCells(r);
    var score := Brightness(src, sw, sh);
    var t := BlockTally(src, sw, sh, tw, th, x, y);
    if PcDominates(t) {
      NonNegativeSums(src, sw, sh, score, cs);
      BestPositive(t);
    }
    EmitSpec(src, sw, sh, score, PcDominates, cs);
  }

  /** A block has as many cells as its area. */
  lemma BlockArea(sw: nat, sh: nat, tw: nat, th: nat, x: int, y: int)
    requires 0 <= x < tw && 0 <= y < th
    ensures var r := BlockFootprint(sw, sh, tw, th)(x, y);
      |RectCells(r)| == (r.x1 - r.x0) * (r.y1 - r.y0)
  {
    var r := BlockFootprint(sw, sh, tw, th)(x, y);
    BlockFootprintInSource(sw, sh, tw, th, x, y);
    RectCellsLength(r);
    if r.y1 == r.y0 {
      assert (r.x1 - r.x0) * (r.y1 - r.y0) == 0;
    }
  }

  /** The criterion only holds with a positive best score. */
  lemma BestPositive(t: Tally)
    requires t.r >= 0 && t.g >= 0 && t.b >= 0 && t.count >= 0 && PcDominates(t)
    ensures t.best > 0
  {
  }

  /** In the pipeline the reduction reads a supersampled image four times
      the target size, so every output pixel tallies exactly 16 pixels. */
  lemma SupersampledBlocks(src: seq<Rgba>, tw: nat, th: nat, x: int, y: int)
    requires 0 <= x < tw && 0 <= y < th
    ensures BlockTally(src, 4 * tw, 4 * th, tw, th, x, y).count == 16
  {
    BlocksOfFour(tw, th, x, y);
    ReducedPixel(src, 4 * tw, 4 * th, tw, th, x, y);
  }

  // ---------------------------------------------------------- sharpening

  /** optimizeForCrossStitch: -0.25 on the four sides and 2 on the centre. */
  method OptimizeForCrossStitch(img: seq<Rgba>, w: nat, h: nat) returns (out: seq<Rgba>)
    requires IsImage(img, w, h)
    ensures |out| == |img|
    ensures forall p :: 0 <= p < |img| ==> out[p].a == img[p].a
    ensures forall p :: 0 <= p < |img| && !Interior(w, h, p % w, p / w) ==> out[p] == img[p]
    ensures forall p :: 0 <= p < |img| && Interior(w, h, p % w, p / w) ==>
      out[p] == CrossAt(img, w, h, p % w, p / w, 0.25, 2.0)
  {
    out := CrossSharpen(img, w, h, 0.25, 2.0);
  }

  /** Its weights sum to 1, so a flat neighbourhood is kept. */
  lemma OptimizeKeepsFlat(img: seq<Rgba>, w: nat, h: nat, x: int, y: int, c: nat)
    requires c < 3
    requires var s := Sample(img, w, h, c);
      s(x - 1, y) == s(x, y) && s(x + 1, y) == s(x, y) && s(x, y - 1) == s(x, y) && s(x, y + 1) == s(x, y)
    ensures Channel(CrossAt(img, w, h, x, y, 0.25, 2.0), c) == Channel(Get(img, w, h, x, y), c)
  {
    FlatIsKept(img, w, h, x, y, c, 0.25, 2.0);
  }
}
