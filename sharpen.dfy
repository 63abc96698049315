/** The cross-shaped sharpen pass several conversion pipelines end with:
    the output starts as a copy of the input, and each colour channel of
    every pixel off the first and last rows and columns becomes
    `Math.max(0, Math.min(255, Math.round(sum)))` of the kernel sum with
    `centre` on the pixel, `-side` on its four side neighbours and 0 on the
    corners; alpha is never written. */
module Sharpen {
  import opened Pixels
  import opened Raster
  import opened Kernels

  /** The kernel sum of channel `c` at `(x, y)`, rounded and cut to 0..255. */
  function CrossChannel(img: seq<Rgba>, w: nat, h: nat, x: int, y: int, c: nat, side: real, centre: real): byte
    requires c < 3
  {
    ClampInt(Round(ConvReal(Sample(img, w, h, c), x, y, CrossKernel(side, centre), 9)))
  }

  function CrossAt(img: seq<Rgba>, w: nat, h: nat, x: int, y: int, side: real, centre: real): Rgba
  {
    Rgba(CrossChannel(img, w, h, x, y, 0, side, centre), CrossChannel(img, w, h, x, y, 1, side, centre),
         CrossChannel(img, w, h, x, y, 2, side, centre), Get(img, w, h, x, y).a)
  }

  /** The unrounded sharpened value: `centre` times the channel less `side`
      times the sum of the four side neighbours' channel. */
  function Sharpened(img: seq<Rgba>, w: nat, h: nat, x: int, y: int, c: nat, side: real, centre: real): real
    requires c < 3
  {
    CrossValue(centre, Channel(Get(img, w, h, x, y), c), side, Cross4(Sample(img, w, h, c), x, y))
  }

  /** The stored channel is the rounded, cut sharpened value. */
  lemma CrossChannelSpec(img: seq<Rgba>, w: nat, h: nat, x: int, y: int, c: nat, side: real, centre: real)
    requires c < 3
    ensures CrossChannel(img, w, h, x, y, c, side, centre) == ClampInt(Round(Sharpened(img, w, h, x, y, c, side, centre)))
  {
    var s := Sample(img, w, h, c);
    CrossSum(s, x, y, side, centre);
    assert s(x, y) == Channel(Get(img, w, h, x, y), c) as int;
  }

  /** A kernel whose weights sum to 1 leaves a channel that is flat across
      the pixel and its side neighbours as it was. */
  lemma FlatIsKept(img: seq<Rgba>, w: nat, h: nat, x: int, y: int, c: nat, side: real, centre: real)
    requires c < 3 && centre - 4.0 * side == 1.0
    requires var s := Sample(img, w, h, c);
      s(x - 1, y) == s(x, y) && s(x + 1, y) == s(x, y) && s(x, y - 1) == s(x, y) && s(x, y + 1) == s(x, y)
    ensures CrossChannel(img, w, h, x, y, c, side, centre) == Channel(Get(img, w, h, x, y), c)
  {
    var s := Sample(img, w, h, c);
    var v: int := Channel(Get(img, w, h, x, y), c);
    CrossChannelSpec(img, w, h, x, y, c, side, centre);
    assert s(x, y) == v;
    assert Cross4(s, x, y) == 4 * v;
    FlatValue(centre, v, side);
  }

  lemma FlatValue(centre: real, v: int, side: real)
    requires centre - 4.0 * side == 1.0
    ensures CrossValue(centre, v, side, 4 * v) == v as real
  {
    var vr := v as real;
    assert (4 * v) as real == 4.0 * vr;
    assert centre * vr - side * (4.0 * vr) == (centre - 4.0 * side) * vr;
  }

  /** The pass: border pixels are copied, interior pixels sharpened. */
  method CrossSharpen(img: seq<Rgba>, w: nat, h: nat, side: real, centre: real) returns (out: seq<Rgba>)
    requires IsImage(img, w, h)
    ensures |out| == |img|
    ensures forall p :: 0 <= p < |img| ==> out[p].a == img[p].a
    ensures forall p :: 0 <= p < |img| && !Interior(w, h, p % w, p / w) ==> out[p] == img[p]
    ensures forall p :: 0 <= p < |img| && Interior(w, h, p % w, p / w) ==>
      out[p] == CrossAt(img, w, h, p % w, p / w, side, centre)
  {
    out := UpdateInterior(img, w, h, (x, y) => CrossAt(img, w, h, x, y, side, centre));
    forall p | 0 <= p < |img|
      ensures out[p].a == img[p].a
    {
      AtIndex(img, w, h, p);
    }
  }
}
