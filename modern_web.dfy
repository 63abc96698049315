/** The modern web conversion: a colour boost, a detail-preserving area
    resize whose override pixel is the one of greatest local contrast, a
    sixteen-step quantizer and a cross-shaped sharpen. */
module ModernWeb {
  import opened Pixels
  import opened Raster
  import opened Footprints
  import opened Dominant
  import opened Levels
  import opened Sharpen

  // ------------------------------------------------------ local contrast

  /** `Math.max(0, Math.min(n - 1, v))`: a coordinate pulled onto the image. */
  function ClampCoord(v: int, n: nat): (c: int)
    ensures n > 0 ==> 0 <= c < n
  {
    var m := Min(n - 1, v);
    if m < 0 then 0 else m
  }

  /** The channel-difference sum between pixel `(x, y)` and the neighbour
      at `nb` pulled onto the image. */
  function DiffTo(img: seq<Rgba>, w: nat, h: nat, x: int, y: int, nb: Cell): nat
  {
    ColorDiff(Get(img, w, h, x, y), Get(img, w, h, ClampCoord(nb.x, w), ClampCoord(nb.y, h)))
  }

  /** The running `Math.max(maxDiff, diff)` over the cells `ns`, from 0. */
  function MaxDiff(img: seq<Rgba>, w: nat, h: nat, x: int, y: int, ns: seq<Cell>): (m: nat)
    ensures m <= 765
  {
    if ns == [] then 0
    else
      var prev := MaxDiff(img, w, h, x, y, ns[..|ns| - 1]);
      var d := DiffTo(img, w, h, x, y, ns[|ns| - 1]);
      if d > prev then d else prev
  }

  lemma MaxDiffSnoc(img: seq<Rgba>, w: nat, h: nat, x: int, y: int, ns: seq<Cell>, nb: Cell)
    ensures var prev, d := MaxDiff(img, w, h, x, y, ns), DiffTo(img, w, h, x, y, nb);
      MaxDiff(img, w, h, x, y, ns + [nb]) == if d > prev then d else prev
  {
    assert (ns + [nb])[..|ns|] == ns;
  }

  /** The running maximum bounds every difference and, when positive, is
      one of them. */
  lemma {:induction false} MaxDiffIsMax(img: seq<Rgba>, w: nat, h: nat, x: int, y: int, ns: seq<Cell>)
    ensures var m := MaxDiff(img, w, h, x, y, ns);
      (forall i :: 0 <= i < |ns| ==> DiffTo(img, w, h, x, y, ns[i]) <= m)
      && (m == 0 || exists i :: 0 <= i < |ns| && DiffTo(img, w, h, x, y, ns[i]) == m)
  {
    if ns != [] {
      var n := |ns| - 1;
      MaxDiffIsMax(img, w, h, x, y, ns[..n]);
      var prev := MaxDiff(img, w, h, x, y, ns[..n]);
      if prev > 0 && DiffTo(img, w, h, x, y, ns[n]) <= prev {
        var i :| 0 <= i < n && DiffTo(img, w, h, x, y, ns[..n][i]) == prev;
        assert ns[i] == ns[..n][i];
      }
    }
  }

  /** calculateLocalContrast as a value: the greatest difference to the
      eight surrounding cells. */
  function LocalContrast(img: seq<Rgba>, w: nat, h: nat, x: int, y: int): (m: nat)
    ensures m <= 765
  {
    MaxDiff(img, w, h, x, y, Ring3(x, y))
  }

  /** calculateLocalContrast: the `dy`, `dx` loops over the 3x3 block that
      skip the centre. */
  method CalculateLocalContrast(img: seq<Rgba>, w: nat, h: nat, x: int, y: int) returns (maxDiff: nat)
    ensures maxDiff == LocalContrast(img, w, h, x, y)
    ensures maxDiff <= 765
  {
    var ws, rs := Window3(x, y), Ring3(x, y);
    maxDiff := 0;
    var k := 0;
    while k < 9
      invariant 0 <= k <= 9
      invariant maxDiff == MaxDiff(img, w, h, x, y, rs[..if k <= 4 then k else k - 1])
    {
      if k != 4 {
        var j := if k < 4 then k else k - 1;
        assert ws[k] == rs[j];
        var diff := DiffTo(img, w, h, x, y, ws[k]);
        assert rs[..j + 1] == rs[..j] + [rs[j]];
        MaxDiffSnoc(img, w, h, x, y, rs[..j], rs[j]);
        maxDiff := if diff > maxDiff then diff else maxDiff;
      }
      k := k + 1;
    }
    assert rs[..8] == rs;
  }

  /** Every difference that enters the contrast is at most the contrast, and
      a positive contrast is one of them. */
  lemma ContrastIsMax(img: seq<Rgba>, w: nat, h: nat, x: int, y: int)
    ensures var m := LocalContrast(img, w, h, x, y);
      (forall nb :: nb in Ring3(x, y) ==> DiffTo(img, w, h, x, y, nb) <= m)
      && (m == 0 || exists nb :: nb in Ring3(x, y) && DiffTo(img, w, h, x, y, nb) == m)
  {
    var ns := Ring3(x, y);
    MaxDiffIsMax(img, w, h, x, y, ns);
    assert forall nb :: nb in ns ==> exists i :: 0 <= i < |ns| && ns[i] == nb;
  }

  // ---------------------------------------------------------------- resize

  function Contrast(src: seq<Rgba>, sw: nat, sh: nat): (int, int) -> int
  {
    (x: int, y: int) => LocalContrast(src, sw, sh, x, y)
  }

  /** `maxContrast > 50`. */
  predicate HasDetail(t: Tally)
  {
    t.best > 50
  }

  function DetailTally(src: seq<Rgba>, sw: nat, sh: nat, tw: nat, th: nat, x: int, y: int): Tally
  {
    Fold(RectCells(Footprint(sw, sh, tw, th)(x, y)), Start, Tallier(src, sw, sh, Contrast(src, sw, sh)))
  }

  function ModernResizedAt(src: seq<Rgba>, sw: nat, sh: nat, tw: nat, th: nat, x: int, y: int): Rgba
  {
    Emit(HasDetail)(DetailTally(src, sw, sh, tw, th, x, y))
  }

  /** intelligentResize of the modern web pipeline. */
  method IntelligentResize(src: seq<Rgba>, sw: nat, sh: nat, tw: nat, th: nat) returns (out: seq<Rgba>)
    ensures |out| == tw * th
    ensures forall p :: 0 <= p < |out| ==> out[p] == ModernResizedAt(src, sw, sh, tw, th, p % tw, p / tw)
  {
    out := Resample(tw, th, Footprint(sw, sh, tw, th), Start,
                    Tallier(src, sw, sh, Contrast(src, sw, sh)), Emit(HasDetail));
  }

  /** A target pixel is the footprint's first pixel of greatest local
      contrast, alpha included, when that contrast exceeds 50, and the
      rounded means otherwise. */
  lemma ModernResizedPixel(src: seq<Rgba>, sw: nat, sh: nat, tw: nat, th: nat, x: int, y: int)
    requires 0 <= x < tw && 0 <= y < th
    ensures var cs := RectCells(Footprint(sw, sh, tw, th)(x, y));
      var t := DetailTally(src, sw, sh, tw, th, x, y);
      var q := ModernResizedAt(src, sw, sh, tw, th, x, y);
      t.count == |cs|
      && (sw > 0 && sh > 0 ==> |cs| > 0)
      && (HasDetail(t) ==> exists i :: IsFirstMax(Scores(cs, Contrast(src, sw, sh)), i)
                                       && q == Get(src, sw, sh, cs[i].x, cs[i].y))
      && (!HasDetail(t) ==> q == Mean(t))
  {
    var r := Footprint(sw, sh, tw, th)(x, y);
    EmitSpec(src, sw, sh, Contrast(src, sw, sh), HasDetail, RectCells(r));
    FootprintInSource(sw, sh, tw, th, x, y);
    if sw > 0 && sh > 0 {
      RectCellsNonEmpty(r);
    }
  }

  // ---------------------------------------------------------- quantization

  function Quantize16(q: Rgba): Rgba
  {
    Rgba(Level(q.r, 16), Level(q.g, 16), Level(q.b, 16), q.a)
  }

  /** optimizedQuantization: sixteen-wide steps per colour channel, alpha
      copied. */
  method OptimizedQuantization(img: seq<Rgba>) returns (out: seq<Rgba>)
    ensures |out| == |img|
    ensures forall p :: 0 <= p < |img| ==>
      out[p] == Rgba(Level(img[p].r, 16), Level(img[p].g, 16), Level(img[p].b, 16), img[p].a)
  {
    out := MapPixels(img, Quantize16);
  }

  /** A quantized pixel's channels are 0, 16, ..., 240 or 255, within 8 of
      the input, and quantizing again changes nothing. */
  lemma Quantize16Facts(q: Rgba)
    ensures forall c :: 0 <= c < 3 ==>
      var v := Channel(Quantize16(q), c);
      (v == 255 || (v % 16 == 0 && v <= 240)) && Abs(v - Channel(q, c)) <= 8
    ensures Quantize16(Quantize16(q)) == Quantize16(q)
  {
    Level16Values(q.r);
    Level16Values(q.g);
    Level16Values(q.b);
    LevelFacts(q.r, 16);
    LevelFacts(q.g, 16);
    LevelFacts(q.b, 16);
    LevelIdempotent(q.r, 16);
    LevelIdempotent(q.g, 16);
    LevelIdempotent(q.b, 16);
  }

  // ------------------------------------------------------------ sharpening

  /** postProcessForSharpness: border pixels and every alpha are kept; each
      interior channel is `round(2c - 0.25 * (four side neighbours))` cut to
      0..255. */
  method PostProcessForSharpness(img: seq<Rgba>, w: nat, h: nat) returns (out: seq<Rgba>)
    requires IsImage(img, w, h)
    ensures |out| == |img|
    ensures forall p :: 0 <= p < |img| ==> out[p].a == img[p].a
    ensures forall p :: 0 <= p < |img| && !Interior(w, h, p % w, p / w) ==> out[p] == img[p]
    ensures forall p, c :: 0 <= p < |img| && Interior(w, h, p % w, p / w) && 0 <= c < 3 ==>
      Channel(out[p], c) == ClampInt(Round(Sharpened(img, w, h, p % w, p / w, c, 0.25, 2.0)))
  {
    out := CrossSharpen(img, w, h, 0.25, 2.0);
    forall p, c | 0 <= p < |img| && Interior(w, h, p % w, p / w) && 0 <= c < 3
      ensures Channel(out[p], c) == ClampInt(Round(Sharpened(img, w, h, p % w, p / w, c, 0.25, 2.0)))
    {
      CrossChannelSpec(img, w, h, p % w, p / w, c, 0.25, 2.0);
    }
  }

  /** modernWebConversion: boost (preprocessImage, whose HSL adjustment is
      the parameter `boost`), resize, quantize, sharpen.  The output has one
      pixel per target cell, its alpha is the resized alpha, and its border
      pixels keep the sixteen-step values. */
  method ModernWebConversion(src: seq<Rgba>, sw: nat, sh: nat, tw: nat, th: nat, boost: Rgb -> Rgb)
    returns (out: seq<Rgba>)
    ensures |out| == tw * th
    ensures forall p :: 0 <= p < |out| ==>
      out[p].a == ModernResizedAt(Recoloured(src, boost), sw, sh, tw, th, p % tw, p / tw).a
    ensures forall p :: 0 <= p < |out| && !Interior(tw, th, p % tw, p / tw) ==>
      forall c :: 0 <= c < 3 ==> Channel(out[p], c) == 255 || Channel(out[p], c) % 16 == 0
  {
    var pre := Recolour(src, boost);
    var resized := IntelligentResize(pre, sw, sh, tw, th);
    var quantized := OptimizedQuantization(resized);
    out := PostProcessForSharpness(quantized, tw, th);
    forall p | 0 <= p < |out| && !Interior(tw, th, p % tw, p / tw)
      ensures forall c :: 0 <= c < 3 ==> Channel(out[p], c) == 255 || Channel(out[p], c) % 16 == 0
    {
      Quantize16Facts(resized[p]);
      assert quantized[p] == Quantize16(resized[p]);
    }
  }
}
