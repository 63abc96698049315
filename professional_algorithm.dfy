/** The professional conversion algorithm: an importance-weighted area
    resize, Floyd-Steinberg error diffusion onto a 48-colour palette over a
    floating-point working copy, and a highlight pass. */
module ProfessionalAlgorithm {
  import opened Pixels
  import opened Raster
  import opened Select
  import opened Footprints

  /** getCrossStitchPalette of this algorithm, group by group: whites and
      light greys, mid and dark greys down to black, skin tones, reds, blues,
      greens, yellows and oranges, purples and pinks, browns. */
  function AlgorithmPalette(): (p: seq<Rgb>)
    ensures |p| == 48
    ensures p[0] == Rgb(255, 255, 255) && p[9] == Rgb(0, 0, 0)
  {
    var whites := [Rgb(255, 255, 255), Rgb(240, 240, 240), Rgb(220, 220, 220), Rgb(200, 200, 200)];
    var greys := [Rgb(180, 180, 180), Rgb(160, 160, 160), Rgb(120, 120, 120), Rgb(80, 80, 80),
                  Rgb(40, 40, 40), Rgb(0, 0, 0)];
    var skin := [Rgb(255, 220, 177), Rgb(255, 205, 148), Rgb(241, 194, 125), Rgb(224, 172, 105),
                 Rgb(198, 134, 66)];
    var reds := [Rgb(255, 0, 0), Rgb(220, 20, 60), Rgb(178, 34, 34), Rgb(139, 0, 0),
                 Rgb(255, 182, 193), Rgb(255, 105, 180)];
    var blues := [Rgb(0, 0, 255), Rgb(30, 144, 255), Rgb(70, 130, 180), Rgb(0, 0, 139),
                  Rgb(173, 216, 230), Rgb(135, 206, 235)];
    var greens := [Rgb(0, 255, 0), Rgb(34, 139, 34), Rgb(0, 128, 0), Rgb(0, 100, 0),
                   Rgb(144, 238, 144), Rgb(152, 251, 152)];
    var yellows := [Rgb(255, 255, 0), Rgb(255, 215, 0), Rgb(255, 165, 0), Rgb(255, 140, 0),
                    Rgb(255, 69, 0)];
    var purples := [Rgb(128, 0, 128), Rgb(75, 0, 130), Rgb(138, 43, 226), Rgb(221, 160, 221),
                    Rgb(255, 20, 147)];
    var browns := [Rgb(139, 69, 19), Rgb(160, 82, 45), Rgb(210, 180, 140), Rgb(222, 184, 135),
                   Rgb(245, 245, 220)];
    assert (whites + greys)[9] == greys[5];
    whites + greys + skin + reds + blues + greens + yellows + purples + browns
  }

  // ---------------------------------------------------------------- resize

  /** The running sums of the resize: each channel and the total weight. */
  datatype WeightedSum = WeightedSum(r: int, g: int, b: int, weight: int)

  const NoSum := WeightedSum(0, 0, 0, 0)

  /** Very dark (brightness below 50) or very bright (above 200) pixels
      weigh double. */
  predicate IsExtreme(p: Rgba)
  {
    Intensity(p) < 150 || Intensity(p) > 600
  }

  function Weight(p: Rgba): int
  {
    if IsExtreme(p) then 2 else 1
  }

  function Weighted(v: int, p: Rgba): int
  {
    if IsExtreme(p) then 2 * v else v
  }

  /** One source pixel added to the running sums. */
  function AddPixel(s: WeightedSum, p: Rgba): WeightedSum
  {
    WeightedSum(s.r + Weighted(p.r, p), s.g + Weighted(p.g, p), s.b + Weighted(p.b, p),
                s.weight + Weight(p))
  }

  function Accumulate(src: seq<Rgba>, sw: nat, sh: nat): (WeightedSum, int, int) -> WeightedSum
  {
    (s: WeightedSum, x: int, y: int) => AddPixel(s, Get(src, sw, sh, x, y))
  }

  /** The written pixel: the rounded weighted means and alpha 255, or the
      untouched zero pixel when nothing was summed. */
  function Average(s: WeightedSum): Rgba
  {
    if s.weight > 0
    then Rgba(ClampInt(RoundDiv(s.r, s.weight)), ClampInt(RoundDiv(s.g, s.weight)),
              ClampInt(RoundDiv(s.b, s.weight)), 255)
    else Transparent
  }

  function ResizedAt(src: seq<Rgba>, sw: nat, sh: nat, tw: nat, th: nat, x: int, y: int): Rgba
  {
    Average(Fold(RectCells(Footprint(sw, sh, tw, th)(x, y)), NoSum, Accumulate(src, sw, sh)))
  }

  /** intelligentResize. */
  method IntelligentResize(src: seq<Rgba>, sw: nat, sh: nat, tw: nat, th: nat) returns (out: seq<Rgba>)
    ensures |out| == tw * th
    ensures forall p :: 0 <= p < |out| ==> out[p] == ResizedAt(src, sw, sh, tw, th, p % tw, p / tw)
  {
    out := Resample(tw, th, Footprint(sw, sh, tw, th), NoSum, Accumulate(src, sw, sh), Average);
  }

  function SumOf(s: WeightedSum, c: nat): int
  {
    if c == 0 then s.r else if c == 1 then s.g else s.b
  }

  /** Sums within `lo` and `hi` times the weight stay so when a pixel whose
      channel lies in `[lo, hi]` is added. */
  lemma AddPixelBounds(s: WeightedSum, p: Rgba, c: nat, lo: int, hi: int)
    requires c < 3 && lo <= Channel(p, c) <= hi
    requires lo * s.weight <= SumOf(s, c) <= hi * s.weight
    ensures var t := AddPixel(s, p);
      t.weight >= s.weight + 1 && lo * t.weight <= SumOf(t, c) <= hi * t.weight
  {
    var v: int := Channel(p, c);
    if IsExtreme(p) {
      MeanStep(s.weight, SumOf(s, c), v, 2, lo, hi);
    } else {
      MeanStep(s.weight, SumOf(s, c), v, 1, lo, hi);
    }
  }

  lemma MeanStep(weight: int, sum: int, v: int, k: nat, lo: int, hi: int)
    requires lo * weight <= sum <= hi * weight && lo <= v <= hi
    ensures lo * (weight + k) <= sum + k * v <= hi * (weight + k)
  {
    assert lo * (weight + k) == lo * weight + k * lo;
    assert hi * (weight + k) == hi * weight + k * hi;
    MulLe(lo, v, k);
    MulLe(v, hi, k);
  }

  /** Weights are at least 1, and a weighted sum of channel values within
      `[lo, hi]` lies within `lo` and `hi` times the total weight. */
  lemma {:induction false} SumBounds(src: seq<Rgba>, sw: nat, sh: nat, cs: seq<Cell>, c: nat, lo: int, hi: int)
    requires c < 3
    requires forall i :: 0 <= i < |cs| ==> lo <= Channel(Get(src, sw, sh, cs[i].x, cs[i].y), c) <= hi
    ensures var s := Fold(cs, NoSum, Accumulate(src, sw, sh));
      s.weight >= |cs| && lo * s.weight <= SumOf(s, c) <= hi * s.weight
  {
    if cs != [] {
      var n := |cs| - 1;
      SumBounds(src, sw, sh, cs[..n], c, lo, hi);
      AddPixelBounds(Fold(cs[..n], NoSum, Accumulate(src, sw, sh)), Get(src, sw, sh, cs[n].x, cs[n].y), c, lo, hi);
    }
  }

  /** A target pixel over a non-empty source is opaque, and each of its
      channels lies between the least and the greatest value of that channel
      in its footprint. */
  lemma ResizedChannelBounds(src: seq<Rgba>, sw: nat, sh: nat, tw: nat, th: nat,
                             x: int, y: int, c: nat, lo: int, hi: int)
    requires sw > 0 && sh > 0 && 0 <= x < tw && 0 <= y < th && c < 3
    requires var r := Footprint(sw, sh, tw, th)(x, y);
      forall sx, sy :: r.x0 <= sx < r.x1 && r.y0 <= sy < r.y1 ==>
        lo <= Channel(Get(src, sw, sh, sx, sy), c) <= hi
    ensures ResizedAt(src, sw, sh, tw, th, x, y).a == 255
    ensures lo <= Channel(ResizedAt(src, sw, sh, tw, th, x, y), c) <= hi
  {
    var r := Footprint(sw, sh, tw, th)(x, y);
    var cs := RectCells(r);
    FootprintInSource(sw, sh, tw, th, x, y);
    RectCellsNonEmpty(r);
    FootprintCells(src, sw, sh, r, c, lo, hi);
    SumBounds(src, sw, sh, cs, c, lo, hi);
    MeanBounds(Fold(cs, NoSum, Accumulate(src, sw, sh)), c, lo, hi);
  }

  lemma FootprintCells(src: seq<Rgba>, sw: nat, sh: nat, r: Rect, c: nat, lo: int, hi: int)
    requires c < 3
    requires forall sx, sy :: r.x0 <= sx < r.x1 && r.y0 <= sy < r.y1 ==>
      lo <= Channel(Get(src, sw, sh, sx, sy), c) <= hi
    ensures var cs := RectCells(r);
      forall i :: 0 <= i < |cs| ==> lo <= Channel(Get(src, sw, sh, cs[i].x, cs[i].y), c) <= hi
  {
  }

  /** The rounded mean of sums within `lo` and `hi` times the weight. */
  lemma MeanBounds(s: WeightedSum, c: nat, lo: int, hi: int)
    requires c < 3 && s.weight > 0 && lo <= 255 && 0 <= hi
    requires lo * s.weight <= SumOf(s, c) <= hi * s.weight
    ensures Average(s).a == 255 && lo <= Channel(Average(s), c) <= hi
  {
    RoundDivBetween(SumOf(s, c), s.weight, lo, hi);
    assert Channel(Average(s), c) == ClampInt(RoundDiv(SumOf(s, c), s.weight));
  }

  // ------------------------------------------------------------- dithering

  /** One pixel of the floating-point working copy (its alpha is never
      read). */
  datatype Fpx = Fpx(r: real, g: real, b: real)

  function ToFpx(p: Rgba): Fpx
  {
    Fpx(p.r as real, p.g as real, p.b as real)
  }

  /** colorDistance scaled by 100 and without the square root, which keeps
      the order of candidates. */
  function ColorDistance(c: Fpx, q: Rgb): real
  {
    var dr, dg, db := c.r - q.r as real, c.g - q.g as real, c.b - q.b as real;
    30.0 * (dr * dr) + 59.0 * (dg * dg) + 11.0 * (db * db)
  }

  function DistanceTo(c: Fpx): Rgb -> real
  {
    (q: Rgb) => ColorDistance(c, q)
  }

  /** findClosestColor. */
  method FindClosestColor(target: Fpx, palette: seq<Rgb>) returns (closest: Rgb)
    requires |palette| > 0
    ensures closest == Nearest(palette, DistanceTo(target))
  {
    var i := ClosestIndex(palette, DistanceTo(target));
    NearestAt(palette, DistanceTo(target), i);
    closest := palette[i];
  }

  function AddScaled(p: Fpx, e: Fpx, k: real): Fpx
  {
    Fpx(p.r + e.r * k, p.g + e.g * k, p.b + e.b * k)
  }

  function ErrorOf(c: Fpx, q: Rgb): Fpx
  {
    Fpx(c.r - q.r as real, c.g - q.g as real, c.b - q.b as real)
  }

  /** `data[j] += e * k`, channel by channel. */
  function AddAt(data: seq<Fpx>, j: nat, e: Fpx, k: real): (d: seq<Fpx>)
    requires j < |data|
    ensures |d| == |data|
    ensures forall m :: 0 <= m < |d| ==> d[m] == if m == j then AddScaled(data[m], e, k) else data[m]
  {
    data[j := AddScaled(data[j], e, k)]
  }

  /** The error of pixel `i` spread to its right (7/16), lower-left (3/16),
      lower (5/16) and lower-right (1/16) neighbours, each only when it
      exists. */
  function Diffuse(data: seq<Fpx>, w: nat, h: nat, i: nat, e: Fpx): (d: seq<Fpx>)
    requires IsImage(data, w, h) && i < |data|
    ensures |d| == |data|
  {
    AtIndex(data, w, h, i);
    NeighbourIndex(w, h, i);
    var x, y := i % w, i / w;
    var d1 := if x + 1 < w then AddAt(data, i + 1, e, 7.0 / 16.0) else data;
    var d2 := if y + 1 < h && x >= 1 then AddAt(d1, i + w - 1, e, 3.0 / 16.0) else d1;
    var d3 := if y + 1 < h then AddAt(d2, i + w, e, 5.0 / 16.0) else d2;
    if y + 1 < h && x + 1 < w then AddAt(d3, i + w + 1, e, 1.0 / 16.0) else d3
  }

  /** The share of the error of the pixel at `(x, y)` that the pixel at
      `(kx, ky)` receives. */
  function Share(x: int, y: int, kx: int, ky: int): real
  {
    if ky == y && kx == x + 1 then 7.0 / 16.0
    else if ky == y + 1 && kx == x - 1 then 3.0 / 16.0
    else if ky == y + 1 && kx == x then 5.0 / 16.0
    else if ky == y + 1 && kx == x + 1 then 1.0 / 16.0
    else 0.0
  }

  /** Each pixel receives exactly its share. */
  lemma DiffuseShares(data: seq<Fpx>, w: nat, h: nat, i: nat, e: Fpx, k: nat)
    requires IsImage(data, w, h) && i < |data| && k < |data|
    ensures Diffuse(data, w, h, i, e)[k] == AddScaled(data[k], e, Share(i % w, i / w, k % w, k / w))
  {
    AtIndex(data, w, h, i);
    AtIndex(data, w, h, k);
    Receivers(w, h, i, k);
  }

  /** The pixels already visited, the current one included, receive
      nothing. */
  lemma DiffuseForward(data: seq<Fpx>, w: nat, h: nat, i: nat, e: Fpx, k: nat)
    requires IsImage(data, w, h) && k <= i < |data|
    ensures Diffuse(data, w, h, i, e)[k] == data[k]
  {
    AtIndex(data, w, h, i);
  }

  /** One visit of the dithering scan. */
  function DitherStep(data: seq<Fpx>, w: nat, h: nat, i: nat): seq<Fpx>
    requires IsImage(data, w, h) && i < |data|
  {
    Diffuse(data, w, h, i, ErrorOf(data[i], Nearest(AlgorithmPalette(), DistanceTo(data[i]))))
  }

  /** The working copy after the first `n` visits. */
  function DitherRun(init: seq<Fpx>, w: nat, h: nat, n: nat): (d: seq<Fpx>)
    requires IsImage(init, w, h) && n <= |init|
    ensures |d| == |init|
  {
    if n == 0 then init else DitherStep(DitherRun(init, w, h, n - 1), w, h, n - 1)
  }

  function WorkingCopy(img: seq<Rgba>): (d: seq<Fpx>)
    ensures |d| == |img|
  {
    seq(|img|, i requires 0 <= i < |img| => ToFpx(img[i]))
  }

  /** The output pixel at `p`: the palette colour nearest to its working
      value once the first `p` visits are done, opaque. */
  function DitheredAt(img: seq<Rgba>, w: nat, h: nat, p: nat): (q: Rgba)
    ensures q.a == 255 || !(IsImage(img, w, h) && p < |img|)
  {
    if IsImage(img, w, h) && p < |img|
    then
      var q := Nearest(AlgorithmPalette(), DistanceTo(DitherRun(WorkingCopy(img), w, h, p)[p]));
      Rgba(q.r, q.g, q.b, 255)
    else Transparent
  }

  /** The output buffer of the scan, pixel by pixel. */
  function Dithered(img: seq<Rgba>, w: nat, h: nat): nat -> Rgba
  {
    (p: nat) => DitheredAt(img, w, h, p)
  }

  /** One visit of the scan continues the run: the colour written is the
      one DitheredAt names, and the spread error gives the next working copy. */
  lemma DitherVisit(img: seq<Rgba>, w: nat, h: nat, i: nat, before: seq<Fpx>, q: Rgb, after: seq<Fpx>)
    requires IsImage(img, w, h) && i < |img|
    requires before == DitherRun(WorkingCopy(img), w, h, i)
    requires q == Nearest(AlgorithmPalette(), DistanceTo(before[i]))
    requires after == Diffuse(before, w, h, i, ErrorOf(before[i], q))
    ensures after == DitherRun(WorkingCopy(img), w, h, i + 1)
    ensures DitheredAt(img, w, h, i) == Rgba(q.r, q.g, q.b, 255)
  {
  }

  /** Every dithered pixel has the RGB of a palette colour. */
  lemma DitheredInPalette(img: seq<Rgba>, w: nat, h: nat, p: nat)
    requires IsImage(img, w, h) && p < |img|
    ensures var q := DitheredAt(img, w, h, p); Rgb(q.r, q.g, q.b) in AlgorithmPalette()
  {
  }

  /** The four error-spreading updates of one visit, in place. */
  method DiffuseError(data: array<Fpx>, w: nat, h: nat, i: nat, e: Fpx)
    requires IsImage(data[..], w, h) && i < data.Length
    modifies data
    ensures data[..] == Diffuse(old(data[..]), w, h, i, e)
  {
    ghost var d0 := data[..];
    AtIndex(d0, w, h, i);
    NeighbourIndex(w, h, i);
    var x, y := i % w, i / w;
    if x + 1 < w {
      data[i + 1] := AddScaled(data[i + 1], e, 7.0 / 16.0);
    }
    ghost var d1 := data[..];
    assert d1 == if x + 1 < w then AddAt(d0, i + 1, e, 7.0 / 16.0) else d0;
    if y + 1 < h {
      if x >= 1 {
        data[i + w - 1] := AddScaled(data[i + w - 1], e, 3.0 / 16.0);
      }
      ghost var d2 := data[..];
      assert d2 == if x >= 1 then AddAt(d1, i + w - 1, e, 3.0 / 16.0) else d1;
      data[i + w] := AddScaled(data[i + w], e, 5.0 / 16.0);
      ghost var d3 := data[..];
      assert d3 == AddAt(d2, i + w, e, 5.0 / 16.0);
      if x + 1 < w {
        data[i + w + 1] := AddScaled(data[i + w + 1], e, 1.0 / 16.0);
      }
      assert data[..] == if x + 1 < w then AddAt(d3, i + w + 1, e, 1.0 / 16.0) else d3;
    }
  }

  /** The floating-point working copy of the channels. */
  method CopyToFloat(img: seq<Rgba>) returns (data: array<Fpx>)
    ensures fresh(data) && data[..] == WorkingCopy(img)
  {
    data := new Fpx[|img|](i requires 0 <= i < |img| => ToFpx(img[i]));
    assert data[..] == WorkingCopy(img);
  }

  /** One visit of the scan, in place: the nearest palette colour to the
      working value of pixel `i` is returned and its error is spread in
      `data`. */
  method DitherPixel(data: array<Fpx>, img: seq<Rgba>, w: nat, h: nat, i: nat) returns (q: Rgb)
    requires IsImage(img, w, h) && i < |img|
    requires data[..] == DitherRun(WorkingCopy(img), w, h, i)
    modifies data
    ensures data[..] == DitherRun(WorkingCopy(img), w, h, i + 1)
    ensures Rgba(q.r, q.g, q.b, 255) == DitheredAt(img, w, h, i)
  {
    ghost var before := data[..];
    var current := data[i];
    q := FindClosestColor(current, AlgorithmPalette());
    DiffuseError(data, w, h, i, ErrorOf(current, q));
    DitherVisit(img, w, h, i, before, q, data[..]);
  }

  /** floydSteinbergDithering: pixel `p` is the palette colour nearest to
      its working value when the scan reaches it, always opaque.  The output
      buffer, written in scan order, is the sequence `out`. */
  method FloydSteinbergDithering(img: seq<Rgba>, w: nat, h: nat) returns (out: seq<Rgba>)
    requires IsImage(img, w, h)
    ensures out == Prefix(Dithered(img, w, h), |img|)
  {
    var data := CopyToFloat(img);
    out := [];
    var i := 0;
    while i < data.Length
      invariant 0 <= i <= data.Length == |img|
      invariant data[..] == DitherRun(WorkingCopy(img), w, h, i)
      invariant out == Prefix(Dithered(img, w, h), i)
    {
      var newColor := DitherPixel(data, img, w, h, i);
      out := out + [Rgba(newColor.r, newColor.g, newColor.b, 255)];
      i := i + 1;
    }
  }

  /** Every pixel of the dithered image is opaque and has the RGB of a
      palette colour. */
  lemma DitheredImageInPalette(img: seq<Rgba>, w: nat, h: nat)
    requires IsImage(img, w, h)
    ensures var out := Prefix(Dithered(img, w, h), |img|);
      forall p :: 0 <= p < |out| ==>
        out[p].a == 255 && Rgb(out[p].r, out[p].g, out[p].b) in AlgorithmPalette()
  {
    forall p | 0 <= p < |img|
      ensures Rgb(DitheredAt(img, w, h, p).r, DitheredAt(img, w, h, p).g, DitheredAt(img, w, h, p).b)
              in AlgorithmPalette()
    {
      DitheredInPalette(img, w, h, p);
    }
  }

  // ------------------------------------------------------------ highlights

  /** A bright pixel (brightness above 200) with at least three dark cells
      in its 3x3 block. */
  predicate IsBrightSpot(img: seq<Rgba>, w: nat, h: nat, x: int, y: int)
  {
    Intensity(Get(img, w, h, x, y)) > 600 && CountWhere(Window3(x, y), Dark(img, w, h)) >= 3
  }

  function EnhanceAt(img: seq<Rgba>, w: nat, h: nat, x: int, y: int): Rgba
  {
    var p := Get(img, w, h, x, y);
    if IsBrightSpot(img, w, h, x, y) then Rgba(255, 255, 255, 255) else Rgba(p.r, p.g, p.b, 255)
  }

  /** enhanceDetails: a bright pixel with at least three dark pixels among
      its in-bounds neighbours turns white; every other pixel keeps its RGB;
      every alpha becomes 255.  The centre is counted by the source's loop
      but, being bright, is never dark. */
  method EnhanceDetails(img: seq<Rgba>, w: nat, h: nat) returns (out: seq<Rgba>)
    requires IsImage(img, w, h)
    ensures |out| == |img|
    ensures forall p :: 0 <= p < |img| ==>
      out[p] == if Intensity(img[p]) > 600 && CountWhere(Ring3(p % w, p / w), Dark(img, w, h)) >= 3
                then Rgba(255, 255, 255, 255) else img[p].(a := 255)
  {
    out := Tabulate(w, h, (x, y) => EnhanceAt(img, w, h, x, y));
    forall p | 0 <= p < |img|
      ensures out[p] == if Intensity(img[p]) > 600 && CountWhere(Ring3(p % w, p / w), Dark(img, w, h)) >= 3
                        then Rgba(255, 255, 255, 255) else img[p].(a := 255)
    {
      AtIndex(img, w, h, p);
      CountWindow(p % w, p / w, Dark(img, w, h));
    }
  }

  /** professionalConversion: every pixel of the result is opaque and has
      the RGB of a palette colour. */
  method ProfessionalConversion(src: seq<Rgba>, sw: nat, sh: nat, tw: nat, th: nat) returns (out: seq<Rgba>)
    ensures |out| == tw * th
    ensures forall p :: 0 <= p < |out| ==>
      out[p].a == 255 && Rgb(out[p].r, out[p].g, out[p].b) in AlgorithmPalette()
  {
    var resized := IntelligentResize(src, sw, sh, tw, th);
    var dithered := FloydSteinbergDithering(resized, tw, th);
    DitheredImageInPalette(resized, tw, th);
    out := EnhanceDetails(dithered, tw, th);
    assert Rgb(255, 255, 255) in AlgorithmPalette() by {
      assert AlgorithmPalette()[0] == Rgb(255, 255, 255);
    }
  }
}
