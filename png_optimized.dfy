/** The PNG-oriented conversion: a pass that keeps light colours and makes
    every pixel opaque, a contrast-weighted area resize, a 32-level
    quantizer that turns near-white to white, and a full 3x3 sharpen that
    makes every pixel opaque again. */
module PngOptimized {
  import opened Pixels
  import opened Raster
  import opened Kernels
  import opened Footprints
  import ProfessionalContour

  // ------------------------------------------------------------ preprocess

  /** `(r + g + b) / 3 > 230`. */
  predicate IsLight(p: Rgba)
  {
    Intensity(p) > 690
  }

  function PreparePixel(boost: Rgb -> Rgb): Rgba -> Rgba
  {
    (q: Rgba) =>
      if IsLight(q) then q.(a := 255)
      else var c := boost(Rgb(q.r, q.g, q.b)); Rgba(c.r, c.g, c.b, 255)
  }

  /** preprocessForPNG: light pixels keep their colour exactly, the others
      go through the saturation boost `boost` (an HSL round trip outside
      this model), and every alpha becomes 255. */
  method PreprocessForPng(img: seq<Rgba>, boost: Rgb -> Rgb) returns (out: seq<Rgba>)
    ensures |out| == |img|
    ensures forall p :: 0 <= p < |img| ==> out[p].a == 255
    ensures forall p :: 0 <= p < |img| && IsLight(img[p]) ==>
      out[p].r == img[p].r && out[p].g == img[p].g && out[p].b == img[p].b
    ensures forall p :: 0 <= p < |img| && !IsLight(img[p]) ==>
      Rgb(out[p].r, out[p].g, out[p].b) == boost(Rgb(img[p].r, img[p].g, img[p].b))
  {
    out := MapPixels(img, PreparePixel(boost));
  }

  // ---------------------------------------------------------- quantization

  /** The level index `Math.round(v / step)` with `step = 255 / 31`, that
      is the rounded quotient of `31 v` by 255. */
  function LevelIndex(v: byte): (n: int)
    ensures 0 <= n <= 31
    ensures 255 * (2 * n - 1) <= 62 * v < 255 * (2 * n + 1)
  {
    RoundDiv(31 * v, 255)
  }

  /** quantizeColor on one channel: `Math.min(255, n * step)` stored into a
      byte. */
  function Level32(v: byte): byte
  {
    var q := LevelIndex(v) as real * (255.0 / 31.0);
    Clamp(if q < 255.0 then q else 255.0)
  }

  /** A 32-level channel lies within 4 of the input, and quantizing it again
      changes nothing. */
  lemma Level32Facts(v: byte)
    ensures Abs(Level32(v) - v) <= 4
    ensures Level32(Level32(v)) == Level32(v)
  {
    var n := LevelIndex(v);
    var x := n as real * (255.0 / 31.0);
    assert 31.0 * x == 255.0 * n as real;
    assert x <= 255.0;
    var l := Level32(v);
    assert x - 0.5 <= l as real <= x + 0.5;
    assert 62.0 * x - 255.0 <= 62.0 * v as real < 62.0 * x + 255.0;
    var m := LevelIndex(l);
    assert 510 * n - 31 <= 62 * l <= 510 * n + 31;
    assert m == n;
  }

  /** `(r + g + b) / 3 > 240`. */
  predicate IsNearWhite(p: Rgba)
  {
    Intensity(p) > 720
  }

  const White := Rgba(255, 255, 255, 255)

  function QuantizePixel(q: Rgba): Rgba
  {
    if IsNearWhite(q) then White else Rgba(Level32(q.r), Level32(q.g), Level32(q.b), 255)
  }

  /** crossStitchQuantization: near-white pixels become white, the others
      are quantized to 32 levels per channel, and every alpha becomes 255. */
  method CrossStitchQuantization(img: seq<Rgba>) returns (out: seq<Rgba>)
    ensures |out| == |img|
    ensures forall p :: 0 <= p < |img| ==> out[p].a == 255
    ensures forall p :: 0 <= p < |img| && IsNearWhite(img[p]) ==> out[p] == White
    ensures forall p :: 0 <= p < |img| && !IsNearWhite(img[p]) ==>
      out[p] == Rgba(Level32(img[p].r), Level32(img[p].g), Level32(img[p].b), 255)
  {
    out := MapPixels(img, QuantizePixel);
  }

  /** Every quantized pixel is opaque and each colour channel is white or
      within 4 of the input channel, at a level a second quantization
      keeps. */
  lemma QuantizePixelFacts(q: Rgba)
    ensures QuantizePixel(q).a == 255
    ensures forall c :: 0 <= c < 3 ==>
      var v := Channel(QuantizePixel(q), c);
      v == 255 || (Abs(v - Channel(q, c)) <= 4 && Level32(v) == v)
  {
    Level32Facts(q.r);
    Level32Facts(q.g);
    Level32Facts(q.b);
  }

  // ------------------------------------------------------------ sharpening

  /** One interior pixel of sharpenForPNG: nine times the channel less the
      eight neighbours, cut to 0..255, and alpha 255. */
  function PngSharpenAt(img: seq<Rgba>, w: nat, h: nat, x: int, y: int): Rgba
  {
    Rgba(ClampInt(ConvInt(Sample(img, w, h, 0), x, y, Sharpen, 9)),
         ClampInt(ConvInt(Sample(img, w, h, 1), x, y, Sharpen, 9)),
         ClampInt(ConvInt(Sample(img, w, h, 2), x, y, Sharpen, 9)), 255)
  }

  /** sharpenForPNG: a zeroed output gets the sharpened interior, then a
      second pass copies the colour of every border pixel; every alpha ends
      at 255. */
  method SharpenForPng(img: seq<Rgba>, w: nat, h: nat) returns (out: seq<Rgba>)
    requires IsImage(img, w, h)
    ensures |out| == |img|
    ensures forall p :: 0 <= p < |img| ==> out[p].a == 255
    ensures forall p :: 0 <= p < |img| && !Interior(w, h, p % w, p / w) ==> out[p] == img[p].(a := 255)
    ensures forall p :: 0 <= p < |img| && Interior(w, h, p % w, p / w) ==>
      forall c :: 0 <= c < 3 ==>
        Channel(out[p], c) == ClampInt(ProfessionalContour.Boosted(img, w, h, p % w, p / w, c))
  {
    var stage := UpdateInterior(Zeros(|img|, Transparent), w, h, (x, y) => PngSharpenAt(img, w, h, x, y));
    out := RewriteBorder(stage, img, w, h, (q: Rgba) => q.(a := 255));
    forall p, c | 0 <= p < |img| && Interior(w, h, p % w, p / w) && 0 <= c < 3
      ensures Channel(out[p], c) == ClampInt(ProfessionalContour.Boosted(img, w, h, p % w, p / w, c))
    {
      SharpenSum(Sample(img, w, h, c), p % w, p / w);
    }
  }

  // -------------------------------------------------------------- contrast

  /** The summed colour difference between `(x, y)` and those cells of `ns`
      that lie on the image. */
  function DiffTotal(img: seq<Rgba>, w: nat, h: nat, x: int, y: int, ns: seq<Cell>): nat
  {
    if ns == [] then 0
    else
      var nb := ns[|ns| - 1];
      DiffTotal(img, w, h, x, y, ns[..|ns| - 1])
      + (if InBounds(w, h, nb.x, nb.y) then ColorDiff(Get(img, w, h, x, y), Get(img, w, h, nb.x, nb.y)) else 0)
  }

  function OnImage(w: nat, h: nat): (int, int) -> bool
  {
    (x: int, y: int) => InBounds(w, h, x, y)
  }

  /** Each of the counted cells adds at most 765. */
  lemma {:induction false} DiffTotalBound(img: seq<Rgba>, w: nat, h: nat, x: int, y: int, ns: seq<Cell>)
    ensures DiffTotal(img, w, h, x, y, ns) <= 765 * CountWhere(ns, OnImage(w, h))
  {
    if ns != [] {
      var n := |ns| - 1;
      DiffTotalBound(img, w, h, x, y, ns[..n]);
      assert ns == ns[..n] + [ns[n]];
      ContrastSnoc(img, w, h, x, y, ns[..n], ns[n]);
    }
  }

  /** calculatePixelContrast as a value: the mean difference to the
      neighbours on the image, as a fraction of the largest possible
      difference, or 0 when there is no such neighbour. */
  function PixelContrast(img: seq<Rgba>, w: nat, h: nat, x: int, y: int): (r: real)
    ensures 0.0 <= r <= 1.0
    ensures CountWhere(Ring3(x, y), OnImage(w, h)) == 0 ==> r == 0.0
  {
    var n := CountWhere(Ring3(x, y), OnImage(w, h));
    DiffTotalBound(img, w, h, x, y, Ring3(x, y));
    if n > 0 then DiffTotal(img, w, h, x, y, Ring3(x, y)) as real / (n * 255 * 3) as real else 0.0
  }

  /** The cells of the 3x3 block `ws` the loops have passed after `k`
      steps, the centre left out. */
  ghost function Visited(ws: seq<Cell>, k: nat): seq<Cell>
    requires |ws| == 9 && k <= 9
  {
    if k <= 4 then ws[..k] else ws[..4] + ws[5..k]
  }

  lemma VisitedStep(ws: seq<Cell>, k: nat)
    requires |ws| == 9 && k < 9
    ensures Visited(ws, k + 1) == if k == 4 then Visited(ws, k) else Visited(ws, k) + [ws[k]]
  {
    if k == 4 {
      assert ws[..4] + ws[5..5] == ws[..4];
    }
  }

  /** calculatePixelContrast: the `dy`, `dx` loops over the 3x3 block that
      skip the centre and every cell off the image. */
  method CalculatePixelContrast(img: seq<Rgba>, w: nat, h: nat, x: int, y: int) returns (r: real)
    ensures r == PixelContrast(img, w, h, x, y)
    ensures 0.0 <= r <= 1.0
  {
    var ws := Window3(x, y);
    var totalDiff := 0;
    var count := 0;
    var k := 0;
    while k < 9
      invariant 0 <= k <= 9
      invariant totalDiff == DiffTotal(img, w, h, x, y, Visited(ws, k))
      invariant count == CountWhere(Visited(ws, k), OnImage(w, h))
    {
      VisitedStep(ws, k);
      var nb := ws[k];
      if k != 4 {
        ContrastSnoc(img, w, h, x, y, Visited(ws, k), nb);
        if InBounds(w, h, nb.x, nb.y) {
          totalDiff := totalDiff + ColorDiff(Get(img, w, h, x, y), Get(img, w, h, nb.x, nb.y));
          count := count + 1;
        }
      }
      k := k + 1;
    }
    assert Visited(ws, 9) == Ring3(x, y);
    r := if count > 0 then totalDiff as real / (count * 255 * 3) as real else 0.0;
  }

  /** One more cell of the block: it adds its difference and counts when
      it is on the image. */
  lemma ContrastSnoc(img: seq<Rgba>, w: nat, h: nat, x: int, y: int, ns: seq<Cell>, nb: Cell)
    ensures DiffTotal(img, w, h, x, y, ns + [nb]) == DiffTotal(img, w, h, x, y, ns)
      + (if InBounds(w, h, nb.x, nb.y) then ColorDiff(Get(img, w, h, x, y), Get(img, w, h, nb.x, nb.y)) else 0)
    ensures CountWhere(ns + [nb], OnImage(w, h)) == CountWhere(ns, OnImage(w, h))
      + (if InBounds(w, h, nb.x, nb.y) then 1 else 0)
  {
    CountAppend(ns, [nb], OnImage(w, h));
    assert CountWhere([nb], OnImage(w, h)) == if InBounds(w, h, nb.x, nb.y) then 1 else 0;
    assert (ns + [nb])[..|ns|] == ns;
  }

  /** A lone pixel has no neighbour on the image, so its contrast is 0. */
  lemma LonePixelContrast(img: seq<Rgba>)
    ensures PixelContrast(img, 1, 1, 0, 0) == 0.0
  {
    var f := OnImage(1, 1);
    var rs := Ring3(0, 0);
    assert forall i :: 0 <= i < 8 ==> !f(rs[i].x, rs[i].y);
    assert CountWhere(rs[7..], f) == 0;
    assert CountWhere(rs[6..], f) == 0;
    assert CountWhere(rs[5..], f) == 0;
    assert CountWhere(rs[4..], f) == 0;
    assert CountWhere(rs[3..], f) == 0;
    assert CountWhere(rs[2..], f) == 0;
    assert CountWhere(rs[1..], f) == 0;
  }

  // ---------------------------------------------------------------- resize

  /** The running sums of the resize: each channel weighted, and the total
      weight. */
  datatype RealSum = RealSum(r: real, g: real, b: real, weight: real)

  const NoSum := RealSum(0.0, 0.0, 0.0, 0.0)

  /** `1 + contrast * 2`. */
  function ContrastWeight(src: seq<Rgba>, sw: nat, sh: nat, x: int, y: int): (wt: real)
    ensures 1.0 <= wt <= 3.0
  {
    1.0 + PixelContrast(src, sw, sh, x, y) * 2.0
  }

  function AddWeighted(s: RealSum, p: Rgba, wt: real): RealSum
  {
    RealSum(s.r + p.r as real * wt, s.g + p.g as real * wt, s.b + p.b as real * wt, s.weight + wt)
  }

  function Accumulate(src: seq<Rgba>, sw: nat, sh: nat): (RealSum, int, int) -> RealSum
  {
    (s: RealSum, x: int, y: int) => AddWeighted(s, Get(src, sw, sh, x, y), ContrastWeight(src, sw, sh, x, y))
  }

  /** The written pixel: the rounded weighted means and alpha 255, or the
      untouched zero pixel when the total weight is 0. */
  function Average(s: RealSum): Rgba
  {
    if s.weight > 0.0
    then Rgba(ClampInt(Round(s.r / s.weight)), ClampInt(Round(s.g / s.weight)),
              ClampInt(Round(s.b / s.weight)), 255)
    else Transparent
  }

  function PngResizedAt(src: seq<Rgba>, sw: nat, sh: nat, tw: nat, th: nat, x: int, y: int): Rgba
  {
    Average(Fold(RectCells(Footprint(sw, sh, tw, th)(x, y)), NoSum, Accumulate(src, sw, sh)))
  }

  /** intelligentResize of the PNG pipeline. */
  method IntelligentResize(src: seq<Rgba>, sw: nat, sh: nat, tw: nat, th: nat) returns (out: seq<Rgba>)
    ensures |out| == tw * th
    ensures forall p :: 0 <= p < |out| ==> out[p] == PngResizedAt(src, sw, sh, tw, th, p % tw, p / tw)
  {
    out := Resample(tw, th, Footprint(sw, sh, tw, th), NoSum, Accumulate(src, sw, sh), Average);
  }

  /** Every weight is at least 1, so the total weight is at least the
      number of pixels summed. */
  lemma {:induction false} WeightAtLeastCount(src: seq<Rgba>, sw: nat, sh: nat, cs: seq<Cell>)
    ensures Fold(cs, NoSum, Accumulate(src, sw, sh)).weight >= |cs| as real
  {
    if cs != [] {
      WeightAtLeastCount(src, sw, sh, cs[..|cs| - 1]);
    }
  }

  /** A target pixel over a non-empty source is opaque. */
  lemma ResizedOpaque(src: seq<Rgba>, sw: nat, sh: nat, tw: nat, th: nat, x: int, y: int)
    requires sw > 0 && sh > 0 && 0 <= x < tw && 0 <= y < th
    ensures PngResizedAt(src, sw, sh, tw, th, x, y).a == 255
  {
    var r := Footprint(sw, sh, tw, th)(x, y);
    FootprintInSource(sw, sh, tw, th, x, y);
    RectCellsNonEmpty(r);
    WeightAtLeastCount(src, sw, sh, RectCells(r));
  }

  // -------------------------------------------------------------- pipeline

  /** pngOptimizedConversion: preprocess, resize, quantize, sharpen.  The
      result has the target size and, because the sharpen pass writes 255
      into every alpha byte, is opaque everywhere. */
  method PngOptimizedConversion(src: seq<Rgba>, sw: nat, sh: nat, tw: nat, th: nat, boost: Rgb -> Rgb)
    returns (out: seq<Rgba>)
    ensures |out| == tw * th
    ensures forall p :: 0 <= p < |out| ==> out[p].a == 255
  {
    var prepared := PreprocessForPng(src, boost);
    var resized := IntelligentResize(prepared, sw, sh, tw, th);
    var quantized := CrossStitchQuantization(resized);
    out := SharpenForPng(quantized, tw, th);
  }
}
