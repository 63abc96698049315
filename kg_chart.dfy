/** The KG-Chart-style conversion: a dominant-pixel area resize, a colour
    boost that keeps alpha, and a mild cross-shaped sharpen. */
module KgChart {
  import opened Pixels
  import opened Raster
  import opened Footprints
  import opened Dominant
  import opened Sharpen

  /** The score of a source pixel: its channel sum `r + g + b`. */
  function Brightness(src: seq<Rgba>, sw: nat, sh: nat): (int, int) -> int
  {
    (x: int, y: int) => Intensity(Get(src, sw, sh, x, y))
  }

  /** `maxIntensity > avgIntensity * 1.3` with `avgIntensity = (r + g + b) /
      count`, scaled to integers; false when nothing was counted. */
  predicate KgDominates(t: Tally)
  {
    10 * t.best * t.count > 13 * (t.r + t.g + t.b)
  }

  function KgTally(src: seq<Rgba>, sw: nat, sh: nat, tw: nat, th: nat, x: int, y: int): Tally
  {
    Fold(RectCells(Footprint(sw, sh, tw, th)(x, y)), Start, Tallier(src, sw, sh, Brightness(src, sw, sh)))
  }

  function KgResizedAt(src: seq<Rgba>, sw: nat, sh: nat, tw: nat, th: nat, x: int, y: int): Rgba
  {
    Emit(KgDominates)(KgTally(src, sw, sh, tw, th, x, y))
  }

  /** kgResize. */
  method KgResize(src: seq<Rgba>, sw: nat, sh: nat, tw: nat, th: nat) returns (out: seq<Rgba>)
    ensures |out| == tw * th
    ensures forall p :: 0 <= p < |out| ==> out[p] == KgResizedAt(src, sw, sh, tw, th, p % tw, p / tw)
  {
    out := Resample(tw, th, Footprint(sw, sh, tw, th), Start,
                    Tallier(src, sw, sh, Brightness(src, sw, sh)), Emit(KgDominates));
  }

  /** The integer criterion is the source's comparison with the 1.3 ratio. */
  lemma KgCriterion(t: Tally)
    requires t.count > 0
    ensures KgDominates(t)
        <==> t.best as real > ((t.r + t.g + t.b) as real / t.count as real) * (13 as real / 10 as real)
  {
    RatioTest(t.best, t.r + t.g + t.b, t.count, 13, 10);
  }

  /** A target pixel is the first brightest pixel of its footprint, alpha
      included, when the criterion holds, and the rounded means of all four
      channels otherwise; over a non-empty source the footprint is the
      clamped rectangle and is not empty. */
  lemma KgResizedPixel(src: seq<Rgba>, sw: nat, sh: nat, tw: nat, th: nat, x: int, y: int)
    requires 0 <= x < tw && 0 <= y < th
    ensures var cs := RectCells(Footprint(sw, sh, tw, th)(x, y));
      var t := KgTally(src, sw, sh, tw, th, x, y);
      var q := KgResizedAt(src, sw, sh, tw, th, x, y);
      t.count == |cs|
      && (sw > 0 && sh > 0 ==> |cs| > 0)
      && (KgDominates(t) ==> exists i :: IsFirstMax(Scores(cs, Brightness(src, sw, sh)), i)
                                         && q == Get(src, sw, sh, cs[i].x, cs[i].y))
      && (!KgDominates(t) ==> q == Mean(t))
  {
    var r := Footprint(sw, sh, tw, th)(x, y);
    var cs := RectCells(r);
    var score := Brightness(src, sw, sh);
    TallyFacts(src, sw, sh, score, cs);
    var t := KgTally(src, sw, sh, tw, th, x, y);
    if KgDominates(t) {
      NonNegativeSums(src, sw, sh, score, cs);
      PositiveBest(t);
    }
    EmitSpec(src, sw, sh, score, KgDominates, cs);
    FootprintInSource(sw, sh, tw, th, x, y);
    if sw > 0 && sh > 0 {
      RectCellsNonEmpty(r);
    }
  }

  lemma {:induction false} PositiveBest(t: Tally)
    requires t.r + t.g + t.b >= 0 && t.count >= 0 && KgDominates(t)
    ensures t.best > 0
  {
  }

  /** enhanceDefinition: -0.1 on the four sides and 1.4 on the centre. */
  method EnhanceDefinition(img: seq<Rgba>, w: nat, h: nat) returns (out: seq<Rgba>)
    requires IsImage(img, w, h)
    ensures |out| == |img|
    ensures forall p :: 0 <= p < |img| ==> out[p].a == img[p].a
    ensures forall p :: 0 <= p < |img| && !Interior(w, h, p % w, p / w) ==> out[p] == img[p]
    ensures forall p :: 0 <= p < |img| && Interior(w, h, p % w, p / w) ==>
      out[p] == CrossAt(img, w, h, p % w, p / w, 0.1, 1.4)
  {
    out := CrossSharpen(img, w, h, 0.1, 1.4);
  }

  /** Its weights sum to 1, so a flat neighbourhood is kept. */
  lemma EnhanceKeepsFlat(img: seq<Rgba>, w: nat, h: nat, x: int, y: int, c: nat)
    requires c < 3
    requires var s := Sample(img, w, h, c);
      s(x - 1, y) == s(x, y) && s(x + 1, y) == s(x, y) && s(x, y - 1) == s(x, y) && s(x, y + 1) == s(x, y)
    ensures Channel(CrossAt(img, w, h, x, y, 0.1, 1.4), c) == Channel(Get(img, w, h, x, y), c)
  {
    FlatIsKept(img, w, h, x, y, c, 0.1, 1.4);
  }

  /** kgChartConversion: resize, boost the colours (optimizeForStitching,
      whose HSV saturation and value boost is the parameter `boost`), then
      sharpen.  The output has one pixel per target cell, and each alpha is
      the resized alpha. */
  method KgChartConversion(src: seq<Rgba>, sw: nat, sh: nat, tw: nat, th: nat, boost: Rgb -> Rgb)
    returns (out: seq<Rgba>)
    ensures |out| == tw * th
    ensures forall p :: 0 <= p < |out| ==> out[p].a == KgResizedAt(src, sw, sh, tw, th, p % tw, p / tw).a
  {
    var resized := KgResize(src, sw, sh, tw, th);
    var optimized := Recolour(resized, boost);
    out := EnhanceDefinition(optimized, tw, th);
  }
}
