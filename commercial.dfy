/** The commercial-style conversion stages: a 64-level quantizer, an
    in-place Floyd-Steinberg pass over the bytes of the image, and a strong
    cross-shaped sharpen. */
module Commercial {
  import opened Pixels
  import opened Raster
  import opened Levels
  import opened Sharpen
  import SimpleAlgorithm

  // ---------------------------------------------------------- quantization

  function Quantize4(q: Rgba): Rgba
  {
    Rgba(Level(q.r, 4), Level(q.g, 4), Level(q.b, 4), q.a)
  }

  /** quantizeColors: four-wide steps per colour channel, alpha copied. */
  method QuantizeColors(img: seq<Rgba>) returns (out: seq<Rgba>)
    ensures |out| == |img|
    ensures forall p :: 0 <= p < |img| ==>
      out[p] == Rgba(Level(img[p].r, 4), Level(img[p].g, 4), Level(img[p].b, 4), img[p].a)
  {
    out := MapPixels(img, Quantize4);
  }

  /** A quantized channel is a multiple of 4 or 255, within 2 of the input,
      and quantizing again changes nothing. */
  lemma Quantize4Facts(q: Rgba)
    ensures forall c :: 0 <= c < 3 ==>
      var v := Channel(Quantize4(q), c);
      (v % 4 == 0 || v == 255) && Abs(v - Channel(q, c)) <= 2
    ensures Quantize4(Quantize4(q)) == Quantize4(q)
  {
    LevelFacts(q.r, 4);
    LevelFacts(q.g, 4);
    LevelFacts(q.b, 4);
    LevelIdempotent(q.r, 4);
    LevelIdempotent(q.g, 4);
    LevelIdempotent(q.b, 4);
  }

  // ------------------------------------------------------------- dithering

  /** The pixels the scan quantizes: every row but the last, every column
      but the first and the last. */
  predicate IsSource(w: nat, h: nat, i: nat)
  {
    w > 0 && i / w < h - 1 && 1 <= i % w < w - 1
  }

  /** `dithered[j] += error * k / 16` on channel `c`: the byte store rounds
      and clamps the sum. */
  function AddError(p: Rgba, c: nat, e: int, k: int): (q: Rgba)
    requires c < 3
    ensures q.a == p.a
  {
    WithChannel(p, c, Clamp(Channel(p, c) as real + (e * k) as real / 16.0))
  }

  function AddErrorAt(data: seq<Rgba>, j: nat, c: nat, e: int, k: int): (d: seq<Rgba>)
    requires j < |data| && c < 3
    ensures |d| == |data|
    ensures forall m :: 0 <= m < |d| ==> d[m] == if m == j then AddError(data[m], c, e, k) else data[m]
  {
    data[j := AddError(data[j], c, e, k)]
  }

  /** Channel `c` of pixel `i`'s error spread to the right (7/16), lower
      left (3/16), lower (5/16) and lower right (1/16), each under the
      source's guard. */
  function Spread(data: seq<Rgba>, w: nat, h: nat, i: nat, c: nat, e: int): (d: seq<Rgba>)
    requires IsImage(data, w, h) && i < |data| && c < 3
    ensures |d| == |data|
  {
    IndexCoords(w, h, i);
    NeighbourIndex(w, h, i);
    var x, y := i % w, i / w;
    var d1 := if x + 1 < w then AddErrorAt(data, i + 1, c, e, 7) else data;
    var d2 := if y + 1 < h && x >= 1 then AddErrorAt(d1, i + w - 1, c, e, 3) else d1;
    var d3 := if y + 1 < h then AddErrorAt(d2, i + w, c, e, 5) else d2;
    if y + 1 < h && x + 1 < w then AddErrorAt(d3, i + w + 1, c, e, 1) else d3
  }

  /** The weight (out of 16) of the error of pixel `(x, y)` that cell
      `(kx, ky)` receives. */
  function Weight(x: int, y: int, kx: int, ky: int): int
  {
    if ky == y && kx == x + 1 then 7
    else if ky == y + 1 && kx == x - 1 then 3
    else if ky == y + 1 && kx == x then 5
    else if ky == y + 1 && kx == x + 1 then 1
    else 0
  }

  /** Spreading from a source pixel gives each receiver its weighted share
      of the error and leaves every other pixel as it was. */
  lemma SpreadShares(data: seq<Rgba>, w: nat, h: nat, i: nat, c: nat, e: int, k: nat)
    requires IsImage(data, w, h) && i < |data| && k < |data| && c < 3 && IsSource(w, h, i)
    ensures var wt := Weight(i % w, i / w, k % w, k / w);
      Spread(data, w, h, i, c, e)[k] == if wt == 0 then data[k] else AddError(data[k], c, e, wt)
  {
    AtIndex(data, w, h, k);
    Receivers(w, h, i, k);
  }

  /** Spreading never touches the current pixel or one before it. */
  lemma SpreadForward(data: seq<Rgba>, w: nat, h: nat, i: nat, c: nat, e: int, k: nat)
    requires IsImage(data, w, h) && k <= i < |data| && c < 3
    ensures Spread(data, w, h, i, c, e)[k] == data[k]
  {
    IndexCoords(w, h, i);
  }

  /** `Math.round(old / 16) * 16`, before the store saturates it. */
  function Rounded16(v: int): int
  {
    RoundDiv(v, 16) * 16
  }

  /** The buffer with channel `c` of pixel `i` stored at its sixteen-step
      level; every other pixel as it was. */
  function Stored16(data: seq<Rgba>, i: nat, c: nat): (d: seq<Rgba>)
    requires i < |data| && c < 3
    ensures |d| == |data|
    ensures forall m :: 0 <= m < |d| && m != i ==> d[m] == data[m]
  {
    data[i := WithChannel(data[i], c, ClampInt(Rounded16(Channel(data[i], c))))]
  }

  /** The quantization error of channel `c`: the old value less the
      unsaturated multiple of 16. */
  function StepError(q: Rgba, c: nat): int
    requires c < 3
  {
    Channel(q, c) - Rounded16(Channel(q, c))
  }

  /** Channel `c` of pixel `i` is quantized and its error, taken against
      the unsaturated multiple of 16, is spread. */
  function ChannelStep(data: seq<Rgba>, w: nat, h: nat, i: nat, c: nat): (d: seq<Rgba>)
    requires IsImage(data, w, h) && i < |data| && c < 3
    ensures |d| == |data|
  {
    Spread(Stored16(data, i, c), w, h, i, c, StepError(data[i], c))
  }

  /** The first `n` channels of pixel `i` dithered, in channel order. */
  function Channels(data: seq<Rgba>, w: nat, h: nat, i: nat, n: nat): (d: seq<Rgba>)
    requires IsImage(data, w, h) && i < |data| && n <= 3
    ensures |d| == |data|
  {
    if n == 0 then data else ChannelStep(Channels(data, w, h, i, n - 1), w, h, i, n - 1)
  }

  /** One visit of the scan: a source pixel has its three colour channels
      dithered; any other pixel is passed over. */
  function PixelStep(data: seq<Rgba>, w: nat, h: nat, i: nat): (d: seq<Rgba>)
    requires IsImage(data, w, h) && i < |data|
    ensures |d| == |data|
  {
    if IsSource(w, h, i) then Channels(data, w, h, i, 3) else data
  }

  /** The buffer after the first `n` visits. */
  function DitherRun(img: seq<Rgba>, w: nat, h: nat, n: nat): (d: seq<Rgba>)
    requires IsImage(img, w, h) && n <= |img|
    ensures |d| == |img|
  {
    if n == 0 then img else PixelStep(DitherRun(img, w, h, n - 1), w, h, n - 1)
  }

  /** The four error stores of one channel, in place. */
  method SpreadError(data: array<Rgba>, w: nat, h: nat, i: nat, c: nat, e: int)
    requires IsImage(data[..], w, h) && i < data.Length && c < 3
    modifies data
    ensures data[..] == Spread(old(data[..]), w, h, i, c, e)
  {
    ghost var d0 := data[..];
    IndexCoords(w, h, i);
    NeighbourIndex(w, h, i);
    var x, y := i % w, i / w;
    if x + 1 < w {
      data[i + 1] := AddError(data[i + 1], c, e, 7);
    }
    ghost var d1 := data[..];
    assert d1 == if x + 1 < w then AddErrorAt(d0, i + 1, c, e, 7) else d0;
    if y + 1 < h {
      if x - 1 >= 0 {
        data[i + w - 1] := AddError(data[i + w - 1], c, e, 3);
      }
      ghost var d2 := data[..];
      assert d2 == if x >= 1 then AddErrorAt(d1, i + w - 1, c, e, 3) else d1;
      data[i + w] := AddError(data[i + w], c, e, 5);
      ghost var d3 := data[..];
      assert d3 == AddErrorAt(d2, i + w, c, e, 5);
      if x + 1 < w {
        data[i + w + 1] := AddError(data[i + w + 1], c, e, 1);
      }
      assert data[..] == if x + 1 < w then AddErrorAt(d3, i + w + 1, c, e, 1) else d3;
    }
  }

  /** One channel of one pixel, in place. */
  method DitherChannel(data: array<Rgba>, w: nat, h: nat, i: nat, c: nat)
    requires IsImage(data[..], w, h) && i < data.Length && c < 3
    modifies data
    ensures data[..] == ChannelStep(old(data[..]), w, h, i, c)
  {
    var oldPixel: int := Channel(data[i], c);
    var newPixel := RoundDiv(oldPixel, 16) * 16;
    var error := oldPixel - newPixel;
    data[i] := WithChannel(data[i], c, ClampInt(newPixel));
    SpreadError(data, w, h, i, c, error);
  }

  /** floydSteinbergDither of the commercial pipeline: a copy of the image
      is dithered in place, row by row over every row but the last and every
      column but the first and the last, channel by channel. */
  method FloydSteinbergDither(img: seq<Rgba>, w: nat, h: nat) returns (out: seq<Rgba>)
    requires IsImage(img, w, h)
    ensures out == DitherRun(img, w, h, |img|)
  {
    var data := ToArray(img);
    var i := 0;
    while i < data.Length
      invariant 0 <= i <= data.Length == |img|
      invariant data[..] == DitherRun(img, w, h, i)
    {
      IndexCoords(w, h, i);
      var x, y := i % w, i / w;
      if y < h - 1 && 1 <= x < w - 1 {
        ghost var before := data[..];
        var c := 0;
        while c < 3
          invariant 0 <= c <= 3 && IsImage(data[..], w, h)
          invariant data[..] == Channels(before, w, h, i, c)
        {
          DitherChannel(data, w, h, i, c);
          c := c + 1;
        }
      }
      i := i + 1;
    }
    out := data[..];
  }

  // ------------------------------------------------------- dithering facts

  /** Spreading the error of channel `c` changes no other channel. */
  lemma SpreadKeepsOthers(data: seq<Rgba>, w: nat, h: nat, i: nat, c: nat, e: int, k: nat, d: nat)
    requires IsImage(data, w, h) && i < |data| && k < |data| && c < 3 && d < 4 && d != c
    ensures Channel(Spread(data, w, h, i, c, e)[k], d) == Channel(data[k], d)
  {
  }

  /** One channel step changes no other channel, in particular no alpha
      byte. */
  lemma ChannelStepOthers(data: seq<Rgba>, w: nat, h: nat, i: nat, c: nat, k: nat, d: nat)
    requires IsImage(data, w, h) && i < |data| && k < |data| && c < 3 && d < 4 && d != c
    ensures Channel(ChannelStep(data, w, h, i, c)[k], d) == Channel(data[k], d)
  {
    SpreadKeepsOthers(Stored16(data, i, c), w, h, i, c, StepError(data[i], c), k, d);
  }

  /** One channel step keeps every pixel before `i` and quantizes channel
      `c` of pixel `i` to the sixteen-step level. */
  lemma ChannelStepForward(data: seq<Rgba>, w: nat, h: nat, i: nat, c: nat, k: nat)
    requires IsImage(data, w, h) && k <= i < |data| && c < 3
    ensures ChannelStep(data, w, h, i, c)[k]
         == if k == i then WithChannel(data[i], c, Level(Channel(data[i], c), 16)) else data[k]
  {
    SpreadForward(Stored16(data, i, c), w, h, i, c, StepError(data[i], c), k);
  }

  /** The pixel `i` with each colour channel at its sixteen-step level. */
  function Quantized16(q: Rgba): Rgba
  {
    Rgba(Level(q.r, 16), Level(q.g, 16), Level(q.b, 16), q.a)
  }

  /** One channel step from a source pixel gives each later pixel its
      weighted share of the channel's error `e`, taken against the
      unsaturated multiple of 16. */
  lemma ChannelStepShares(data: seq<Rgba>, w: nat, h: nat, i: nat, c: nat, k: nat, e: int)
    requires IsImage(data, w, h) && i < k < |data| && c < 3 && IsSource(w, h, i)
    requires e == Channel(data[i], c) - Rounded16(Channel(data[i], c))
    ensures var wt := Weight(i % w, i / w, k % w, k / w);
      ChannelStep(data, w, h, i, c)[k] == if wt == 0 then data[k] else AddError(data[k], c, e, wt)
  {
    var d0 := Stored16(data, i, c);
    assert d0[k] == data[k] && e == StepError(data[i], c);
    assert ChannelStep(data, w, h, i, c) == Spread(d0, w, h, i, c, e);
    SpreadShares(d0, w, h, i, c, e, k);
  }

  /** The first `n` channel steps keep every alpha byte and every pixel
      before `i`, and leave the first `n` channels of pixel `i` quantized. */
  lemma {:induction false} ChannelsFacts(data: seq<Rgba>, w: nat, h: nat, i: nat, n: nat, k: nat)
    requires IsImage(data, w, h) && i < |data| && k < |data| && n <= 3
    ensures Channels(data, w, h, i, n)[k].a == data[k].a
    ensures k < i ==> Channels(data, w, h, i, n)[k] == data[k]
    ensures forall c :: 0 <= c < 3 ==>
              Channel(Channels(data, w, h, i, n)[i], c)
              == if c < n then Level(Channel(data[i], c), 16) else Channel(data[i], c)
  {
    if n > 0 {
      var prev := Channels(data, w, h, i, n - 1);
      var next := ChannelStep(prev, w, h, i, n - 1);
      assert Channels(data, w, h, i, n) == next;
      ChannelsFacts(data, w, h, i, n - 1, k);
      ChannelStepOthers(prev, w, h, i, n - 1, k, 3);
      if k < i {
        ChannelStepForward(prev, w, h, i, n - 1, k);
      }
      ChannelStepForward(prev, w, h, i, n - 1, i);
      assert next[i] == WithChannel(prev[i], n - 1, Level(Channel(prev[i], n - 1), 16));
    }
  }

  /** No visit changes an alpha byte. */
  lemma PixelStepAlpha(data: seq<Rgba>, w: nat, h: nat, i: nat, k: nat)
    requires IsImage(data, w, h) && i < |data| && k < |data|
    ensures PixelStep(data, w, h, i)[k].a == data[k].a
  {
    ChannelsFacts(data, w, h, i, 3, k);
  }

  /** Visiting a source pixel quantizes it; no visit changes a pixel
      visited before. */
  lemma PixelStepForward(data: seq<Rgba>, w: nat, h: nat, i: nat, k: nat)
    requires IsImage(data, w, h) && k <= i < |data|
    ensures k < i ==> PixelStep(data, w, h, i)[k] == data[k]
    ensures IsSource(w, h, i) ==> PixelStep(data, w, h, i)[i] == Quantized16(data[i])
  {
    ChannelsFacts(data, w, h, i, 3, k);
    ChannelsFacts(data, w, h, i, 3, i);
    var q := Channels(data, w, h, i, 3)[i];
    assert Channel(q, 0) == q.r && Channel(q, 1) == q.g && Channel(q, 2) == q.b;
  }

  /** After the first `n` visits every alpha byte is the input's, and a
      visited pixel no longer changes. */
  lemma {:induction false} RunFacts(img: seq<Rgba>, w: nat, h: nat, n: nat, k: nat)
    requires IsImage(img, w, h) && n <= |img| && k < |img|
    ensures DitherRun(img, w, h, n)[k].a == img[k].a
    ensures k < n ==> DitherRun(img, w, h, n)[k] == DitherRun(img, w, h, k + 1)[k]
  {
    if n > 0 {
      RunFacts(img, w, h, n - 1, k);
      PixelStepAlpha(DitherRun(img, w, h, n - 1), w, h, n - 1, k);
      if k < n - 1 {
        PixelStepForward(DitherRun(img, w, h, n - 1), w, h, n - 1, k);
      }
    }
  }

  /** The dithered image keeps every alpha byte, and each source pixel is
      the sixteen-step quantization of its value when the scan reached it:
      every colour channel is 0, 16, ..., 240 or 255. */
  lemma DitheredFacts(img: seq<Rgba>, w: nat, h: nat, p: nat)
    requires IsImage(img, w, h) && p < |img|
    ensures var out := DitherRun(img, w, h, |img|);
      out[p].a == img[p].a
      && (IsSource(w, h, p) ==>
            out[p] == Quantized16(DitherRun(img, w, h, p)[p])
            && forall c :: 0 <= c < 3 ==>
                 (Channel(out[p], c) == 255
                  || (Channel(out[p], c) % 16 == 0 && Channel(out[p], c) <= 240)))
  {
    RunFacts(img, w, h, |img|, p);
    PixelStepForward(DitherRun(img, w, h, p), w, h, p, p);
    var q := DitherRun(img, w, h, p)[p];
    Level16Values(q.r);
    Level16Values(q.g);
    Level16Values(q.b);
  }

  /** On a three by two image the only source pixel is the middle of the
      top row, so the scan's effect on the first four pixels is that
      pixel's visit. */
  lemma ThreeByTwoRun(img: seq<Rgba>, k: nat)
    requires |img| == 6 && k < 4
    ensures DitherRun(img, 3, 2, 6)[k] == Channels(img, 3, 2, 1, 3)[k]
  {
    assert IsImage(img, 3, 2);
    RunFacts(img, 3, 2, 6, k);
    assert DitherRun(img, 3, 2, 1) == img;
    assert DitherRun(img, 3, 2, 2) == Channels(img, 3, 2, 1, 3);
    assert DitherRun(img, 3, 2, 4) == DitherRun(img, 3, 2, 2);
    if k < 2 {
      RunFacts(img, 3, 2, 2, k);
    }
  }

  /** On a three by two image, the lower left pixel's red byte takes 3/16
      of the red error `e` of the middle of the top row. */
  lemma ThreeByTwoShare(img: seq<Rgba>, e: int)
    requires |img| == 6 && e == img[1].r - Rounded16(img[1].r)
    ensures DitherRun(img, 3, 2, 6)[3].r == AddError(img[3], 0, e, 3).r
  {
    assert IsImage(img, 3, 2);
    ThreeByTwoRun(img, 3);
    var d1 := ChannelStep(img, 3, 2, 1, 0);
    var d2 := ChannelStep(d1, 3, 2, 1, 1);
    assert Weight(1, 0, 0, 1) == 3;
    ChannelStepShares(img, 3, 2, 1, 0, 3, e);
    ChannelStepOthers(d1, 3, 2, 1, 1, 3, 0);
    ChannelStepOthers(d2, 3, 2, 1, 2, 3, 0);
    assert Channels(img, 3, 2, 1, 0) == img;
    assert Channels(img, 3, 2, 1, 1) == d1;
    assert Channels(img, 3, 2, 1, 2) == d2;
  }

  /** The last row and the first and last columns are never quantized, yet
      they still take a share of their neighbours' error: on a three by two
      image of grey 20 the only source pixel rounds to 16 and the lower left
      pixel ends at 21 (20 plus 3/16 of the error 4, rounded). */
  lemma EdgesKeepError()
    ensures var img := seq(6, _ => Rgba(20, 20, 20, 255));
      DitherRun(img, 3, 2, 6)[1].r == 16 && DitherRun(img, 3, 2, 6)[3].r == 21
  {
    var img := seq(6, _ => Rgba(20, 20, 20, 255));
    GreySourceRounds(img);
    GreyCornerTakesShare(img);
  }

  /** The grey source pixel of the three by two example rounds to 16. */
  lemma GreySourceRounds(img: seq<Rgba>)
    requires img == seq(6, _ => Rgba(20, 20, 20, 255))
    ensures DitherRun(img, 3, 2, 6)[1].r == 16
  {
    var d := Channels(img, 3, 2, 1, 3);
    ThreeByTwoRun(img, 1);
    ChannelsFacts(img, 3, 2, 1, 3, 1);
    assert img[1].r == 20;
    assert Channel(d[1], 0) == Level(20, 16);
    TwentyRoundsTo16();
  }

  lemma TwentyRoundsTo16()
    ensures Level(20, 16) == 16 && Rounded16(20) == 16
  {
  }

  /** The lower left pixel of the three by two example ends at 21. */
  lemma GreyCornerTakesShare(img: seq<Rgba>)
    requires img == seq(6, _ => Rgba(20, 20, 20, 255))
    ensures DitherRun(img, 3, 2, 6)[3].r == 21
  {
    TwentyRoundsTo16();
    ThreeByTwoShare(img, 4);
    assert AddError(img[3], 0, 4, 3).r == Clamp(20.75);
  }

  // ---------------------------------------------------------- sharpening

  /** enhanceEdges: -0.5 on the four sides and 3 on the centre, interior
      pixels only, alpha copied. */
  method EnhanceEdges(img: seq<Rgba>, w: nat, h: nat) returns (out: seq<Rgba>)
    requires IsImage(img, w, h)
    ensures |out| == |img|
    ensures forall p :: 0 <= p < |img| ==> out[p].a == img[p].a
    ensures forall p :: 0 <= p < |img| && !Interior(w, h, p % w, p / w) ==> out[p] == img[p]
    ensures forall p :: 0 <= p < |img| && Interior(w, h, p % w, p / w) ==>
      out[p] == CrossAt(img, w, h, p % w, p / w, 0.5, 3.0)
  {
    out := CrossSharpen(img, w, h, 0.5, 3.0);
  }

  /** Its weights sum to 1, so a flat neighbourhood is kept. */
  lemma EnhanceEdgesKeepsFlat(img: seq<Rgba>, w: nat, h: nat, x: int, y: int, c: nat)
    requires c < 3
    requires var s := Sample(img, w, h, c);
      s(x - 1, y) == s(x, y) && s(x + 1, y) == s(x, y) && s(x, y - 1) == s(x, y) && s(x, y + 1) == s(x, y)
    ensures Channel(CrossAt(img, w, h, x, y, 0.5, 3.0), c) == Channel(Get(img, w, h, x, y), c)
  {
    FlatIsKept(img, w, h, x, y, c, 0.5, 3.0);
  }

  // -------------------------------------------------------------- pipeline

  /** The stages of convertToCommercialCrossStitch after the resize, in
      order: quantize, dither, enhance.  Every stage copies alpha, and the
      border the enhancement leaves alone holds the dithered pixels. */
  method CommercialStages(img: seq<Rgba>, w: nat, h: nat) returns (out: seq<Rgba>)
    requires IsImage(img, w, h)
    ensures |out| == |img|
    ensures forall p :: 0 <= p < |img| ==> out[p].a == img[p].a
    ensures var d := DitherRun(seq(|img|, p requires 0 <= p < |img| => Quantize4(img[p])), w, h, |img|);
      forall p :: 0 <= p < |img| && !Interior(w, h, p % w, p / w) ==> out[p] == d[p]
  {
    var quantized := QuantizeColors(img);
    assert quantized == seq(|img|, p requires 0 <= p < |img| => Quantize4(img[p]));
    var dithered := FloydSteinbergDither(quantized, w, h);
    forall p | 0 <= p < |img|
      ensures dithered[p].a == img[p].a
    {
      RunFacts(quantized, w, h, |img|, p);
    }
    out := EnhanceEdges(dithered, w, h);
  }

  /** convertToCommercialCrossStitch: commercialResize, whose bilinear
      blend and rounding are those of simpleResize, then the three stages.
      The result has one pixel per target cell, each with the resized
      alpha. */
  method ConvertToCommercialCrossStitch(src: seq<Rgba>, sw: nat, sh: nat, tw: nat, th: nat)
    returns (out: seq<Rgba>)
    ensures |out| == tw * th
    ensures forall p :: 0 <= p < |out| ==> out[p].a == SimpleAlgorithm.SimpleResizedAt(src, sw, sh, tw, th, p % tw, p / tw).a
  {
    var resized := SimpleAlgorithm.SimpleResize(src, sw, sh, tw, th);
    out := CommercialStages(resized, tw, th);
  }
}
