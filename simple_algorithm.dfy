/** The simple conversion: a plain bilinear resize followed by a light
    sixteen-step quantization that leaves light colours alone. */
module SimpleAlgorithm {
  import opened Pixels
  import opened Raster
  import opened Levels

  // ---------------------------------------------------------------- resize

  /** `sourceSize / targetSize`, for a target size the loops visit. */
  function Scale(s: nat, t: nat): real
  {
    if t == 0 then 0.0 else s as real / t as real
  }

  /** One axis of the sample point `x * scale`: the source coordinate at
      or before it, the next one held at the last column or row, and the
      fractional offset between them. */
  function Axis(s: nat, t: nat, x: int): (int, int, real)
  {
    var sx := x as real * Scale(s, t);
    var x1 := sx.Floor;
    (x1, Min(x1 + 1, s - 1), sx - x1 as real)
  }

  /** At unchanged size the sample point is the coordinate itself. */
  lemma AxisSameSize(s: nat, x: int)
    requires 0 <= x < s
    ensures Axis(s, s, x) == (x, Min(x + 1, s - 1), 0.0)
  {
    var r := s as real;
    assert r > 0.0;
    assert Scale(s, s) == r / r;
    assert r / r == 1.0;
    assert x as real * Scale(s, s) == x as real;
  }

  /** Channel `c` of the target pixel `(x, y)`: the four source pixels
      around the sample point blended by the two fractional offsets; the
      store keeps `Math.round` of the blend. */
  function BilinearChannel(src: seq<Rgba>, sw: nat, sh: nat, tw: nat, th: nat, x: int, y: int, c: nat): byte
    requires c < 4
  {
    var (x1, x2, fx) := Axis(sw, tw, x);
    var (y1, y2, fy) := Axis(sh, th, y);
    var s := Sample(src, sw, sh, c);
    ClampInt(Round(Blend(s(x1, y1), s(x2, y1), s(x1, y2), s(x2, y2), fx, fy)))
  }

  /** The top pair blended by `fx`, the bottom pair likewise, and the two
      results blended by `fy`. */
  function Blend(p1: int, p2: int, p3: int, p4: int, fx: real, fy: real): real
  {
    var i1 := p1 as real * (1.0 - fx) + p2 as real * fx;
    var i2 := p3 as real * (1.0 - fx) + p4 as real * fx;
    i1 * (1.0 - fy) + i2 * fy
  }

  /** With both offsets 0 the blend is the top-left value. */
  lemma BlendAtCorner(p1: int, p2: int, p3: int, p4: int)
    ensures Blend(p1, p2, p3, p4, 0.0, 0.0) == p1 as real
  {
  }

  function SimpleResizedAt(src: seq<Rgba>, sw: nat, sh: nat, tw: nat, th: nat, x: int, y: int): Rgba
  {
    Rgba(BilinearChannel(src, sw, sh, tw, th, x, y, 0), BilinearChannel(src, sw, sh, tw, th, x, y, 1),
         BilinearChannel(src, sw, sh, tw, th, x, y, 2), BilinearChannel(src, sw, sh, tw, th, x, y, 3))
  }

  /** simpleResize: every target pixel, in scan order. */
  method SimpleResize(src: seq<Rgba>, sw: nat, sh: nat, tw: nat, th: nat) returns (out: seq<Rgba>)
    ensures |out| == tw * th
    ensures forall p :: 0 <= p < |out| ==> out[p] == SimpleResizedAt(src, sw, sh, tw, th, p % tw, p / tw)
  {
    out := Tabulate(tw, th, (x, y) => SimpleResizedAt(src, sw, sh, tw, th, x, y));
  }

  /** At unchanged size the sample point is the pixel itself, both offsets
      are 0 and each channel is the source channel. */
  lemma SameSizeChannel(src: seq<Rgba>, w: nat, h: nat, x: int, y: int, c: nat)
    requires c < 4 && InBounds(w, h, x, y)
    ensures BilinearChannel(src, w, h, w, h, x, y, c) == Channel(Get(src, w, h, x, y), c)
  {
    AxisSameSize(w, x);
    AxisSameSize(h, y);
    var s := Sample(src, w, h, c);
    var x2, y2 := Min(x + 1, w - 1), Min(y + 1, h - 1);
    BlendAtCorner(s(x, y), s(x2, y), s(x, y2), s(x2, y2));
    assert Round(s(x, y) as real) == s(x, y);
  }

  /** Resizing to the source size returns the source pixels. */
  lemma SameSizeIsIdentity(src: seq<Rgba>, w: nat, h: nat, p: nat)
    requires IsImage(src, w, h) && p < |src|
    ensures SimpleResizedAt(src, w, h, w, h, p % w, p / w) == src[p]
  {
    AtIndex(src, w, h, p);
    SameSizeChannel(src, w, h, p % w, p / w, 0);
    SameSizeChannel(src, w, h, p % w, p / w, 1);
    SameSizeChannel(src, w, h, p % w, p / w, 2);
    SameSizeChannel(src, w, h, p % w, p / w, 3);
  }

  // ---------------------------------------------------------- quantization

  /** `(r + g + b) / 3 > 200`. */
  predicate IsLight(p: Rgba)
  {
    Intensity(p) > 600
  }

  function LightPixel(q: Rgba): Rgba
  {
    if IsLight(q) then q.(a := 255) else Rgba(Level(q.r, 16), Level(q.g, 16), Level(q.b, 16), 255)
  }

  /** lightQuantization: light pixels keep their colour, the others take
      sixteen-wide steps per channel, and every alpha becomes 255. */
  method LightQuantization(img: seq<Rgba>) returns (out: seq<Rgba>)
    ensures |out| == |img|
    ensures forall p :: 0 <= p < |img| ==> out[p].a == 255
    ensures forall p :: 0 <= p < |img| && IsLight(img[p]) ==>
      out[p].r == img[p].r && out[p].g == img[p].g && out[p].b == img[p].b
    ensures forall p :: 0 <= p < |img| && !IsLight(img[p]) ==>
      out[p].r == Level(img[p].r, 16) && out[p].g == Level(img[p].g, 16) && out[p].b == Level(img[p].b, 16)
  {
    out := MapPixels(img, LightPixel);
  }

  /** A quantized channel of a dark pixel is 0, 16, ..., 240 or 255, within
      8 of the input. */
  lemma LightPixelLevels(q: Rgba)
    ensures !IsLight(q) ==> forall c :: 0 <= c < 3 ==>
      var v := Channel(LightPixel(q), c);
      (v == 255 || (v % 16 == 0 && v <= 240)) && 2 * Abs(v - Channel(q, c)) <= 16
  {
    Level16Values(q.r);
    Level16Values(q.g);
    Level16Values(q.b);
    LevelFacts(q.r, 16);
    LevelFacts(q.g, 16);
    LevelFacts(q.b, 16);
  }

  /** Quantizing a second time changes nothing: a light pixel stays light,
      and a level stays at its level. */
  lemma LightPixelIdempotent(q: Rgba)
    ensures LightPixel(LightPixel(q)) == LightPixel(q)
  {
    if !IsLight(q) {
      LevelIdempotent(q.r, 16);
      LevelIdempotent(q.g, 16);
      LevelIdempotent(q.b, 16);
    }
  }

  // -------------------------------------------------------------- pipeline

  /** simpleConversion: resize then quantize.  The result has the target
      size, is opaque everywhere, and at unchanged size is the light
      quantization of the source. */
  method SimpleConversion(src: seq<Rgba>, sw: nat, sh: nat, tw: nat, th: nat) returns (out: seq<Rgba>)
    ensures |out| == tw * th
    ensures forall p :: 0 <= p < |out| ==> out[p].a == 255
    ensures sw == tw && sh == th && IsImage(src, sw, sh) ==>
      forall p :: 0 <= p < |out| ==> out[p] == LightPixel(src[p])
  {
    var resized := SimpleResize(src, sw, sh, tw, th);
    out := LightQuantization(resized);
    if sw == tw && sh == th && IsImage(src, sw, sh) {
      forall p | 0 <= p < |out|
        ensures out[p] == LightPixel(src[p])
      {
        SameSizeIsIdentity(src, sw, sh, p);
      }
    }
  }
}
