/** The professional converter of the image import screen: after the image
    has been resized, the background is cleared, strong colour changes are
    painted black, every visible pixel is snapped to a 21-colour
    cross-stitch palette, isolated highlights are whitened, and the visible
    pixels become the `"#rrggbb"` cells of the grid. */
module ProfessionalConverter {
  import opened Pixels
  import opened Raster
  import opened Select
  import Hex

  // --------------------------------------------------------------- palette

  datatype PaletteColor = PaletteColor(r: byte, g: byte, b: byte, name: string)

  /** getCrossStitchPalette: black for outlines first, then skin, whites
      and greys, blues, golds, greens, pinks and browns. */
  function CrossStitchPalette(): (p: seq<PaletteColor>)
    ensures |p| == 21
    ensures p[0] == PaletteColor(0, 0, 0, "Black-310")
    ensures p[4] == PaletteColor(255, 255, 255, "White")
  {
    [ PaletteColor(0, 0, 0, "Black-310"),
      PaletteColor(255, 220, 177, "Skin-Light"),
      PaletteColor(241, 194, 125, "Skin-Medium"),
      PaletteColor(210, 150, 90, "Skin-Dark"),
      PaletteColor(255, 255, 255, "White"),
      PaletteColor(230, 230, 230, "Gray-Light"),
      PaletteColor(150, 150, 150, "Gray-Medium"),
      PaletteColor(135, 206, 250, "Blue-Light"),
      PaletteColor(70, 130, 180, "Blue-Medium"),
      PaletteColor(30, 70, 120, "Blue-Dark"),
      PaletteColor(255, 223, 0, "Gold-Bright"),
      PaletteColor(218, 165, 32, "Gold-Medium"),
      PaletteColor(184, 134, 11, "Gold-Dark"),
      PaletteColor(144, 238, 144, "Green-Light"),
      PaletteColor(60, 179, 113, "Green-Medium"),
      PaletteColor(255, 182, 193, "Pink-Light"),
      PaletteColor(255, 105, 180, "Pink-Medium"),
      PaletteColor(220, 20, 60, "Red-Dark"),
      PaletteColor(139, 90, 43, "Brown-Light"),
      PaletteColor(101, 67, 33, "Brown-Medium"),
      PaletteColor(70, 40, 20, "Brown-Dark") ]
  }

  /** The RGB of a pixel is that of some palette entry. */
  predicate InPalette(p: Rgba)
  {
    exists c :: c in CrossStitchPalette() && c.r == p.r && c.g == p.g && c.b == p.b
  }

  // ----------------------------------------------------- background removal

  /** Nearly invisible (alpha below 20) or pure-white (every channel above
      250) pixels count as background. */
  predicate IsBackground(p: Rgba)
  {
    p.a < 20 || (p.r > 250 && p.g > 250 && p.b > 250)
  }

  const ClearWhite := Rgba(255, 255, 255, 0)

  function Cleaned(p: Rgba): Rgba
  {
    if IsBackground(p) then ClearWhite else p
  }

  /** removeBackground: background pixels become transparent white, every
      other pixel is copied. */
  method RemoveBackground(img: seq<Rgba>) returns (out: seq<Rgba>)
    ensures |out| == |img|
    ensures forall i :: 0 <= i < |img| ==>
      out[i] == if IsBackground(img[i]) then ClearWhite else img[i]
  {
    out := MapPixels(img, Cleaned);
  }

  /** Clearing the background twice is clearing it once, and a cleared pixel
      is either transparent white or an untouched non-background pixel. */
  lemma CleanedIdempotent(p: Rgba)
    ensures Cleaned(Cleaned(p)) == Cleaned(p)
    ensures Cleaned(p) == ClearWhite || (Cleaned(p) == p && p.a >= 20)
  {
  }

  // --------------------------------------------------------- contour pass

  /** The `maxDiff` loop over the side neighbours of a pixel: a missing or
      transparent neighbour sets 255 and stops the loop; otherwise the
      running maximum of the channel-difference sums is kept. */
  function ScanDiff(img: seq<Rgba>, w: nat, h: nat, centre: Rgba, ns: seq<Cell>, acc: int): int
  {
    if ns == [] then acc
    else
      var n := ns[0];
      var q := Get(img, w, h, n.x, n.y);
      if !InBounds(w, h, n.x, n.y) || q.a < 20 then 255
      else ScanDiff(img, w, h, centre, ns[1..], if ColorDiff(centre, q) > acc then ColorDiff(centre, q) else acc)
  }

  /** A neighbour that marks the pixel as a contour: missing, transparent,
      or differing by a channel sum above 80. */
  predicate Marks(img: seq<Rgba>, w: nat, h: nat, centre: Rgba, n: Cell)
  {
    !InBounds(w, h, n.x, n.y) || Get(img, w, h, n.x, n.y).a < 20
    || ColorDiff(centre, Get(img, w, h, n.x, n.y)) > 80
  }

  /** The early `break` does not matter for the threshold: the scan ends
      above 80 exactly when the start was above 80 or some neighbour marks
      the pixel. */
  lemma {:induction false} ScanDiffExceeds(img: seq<Rgba>, w: nat, h: nat, centre: Rgba, ns: seq<Cell>, acc: int)
    ensures ScanDiff(img, w, h, centre, ns, acc) > 80 <==>
      acc > 80 || exists n :: n in ns && Marks(img, w, h, centre, n)
  {
    if ns != [] {
      var n := ns[0];
      var q := Get(img, w, h, n.x, n.y);
      if !InBounds(w, h, n.x, n.y) || q.a < 20 {
        assert Marks(img, w, h, centre, n);
      } else {
        var acc' := if ColorDiff(centre, q) > acc then ColorDiff(centre, q) else acc;
        ScanDiffExceeds(img, w, h, centre, ns[1..], acc');
        assert acc' > 80 <==> acc > 80 || ColorDiff(centre, q) > 80;
        assert Marks(img, w, h, centre, n) <==> ColorDiff(centre, q) > 80;
        assert forall m :: m in ns <==> m == n || m in ns[1..];
      }
    }
  }

  /** An interior pixel that the contour pass paints black. */
  predicate IsContourPixel(img: seq<Rgba>, w: nat, h: nat, x: int, y: int)
  {
    var c := Get(img, w, h, x, y);
    c.a >= 20 && exists n :: n in Neighbours4(x, y) && Marks(img, w, h, c, n)
  }

  const Black := Rgba(0, 0, 0, 255)

  function ContourAt(img: seq<Rgba>, w: nat, h: nat, x: int, y: int): Rgba
  {
    var c := Get(img, w, h, x, y);
    if c.a < 20 then c
    else if ScanDiff(img, w, h, c, Neighbours4(x, y), 0) > 80 then Black
    else c
  }

  /** detectAndEnhanceContours: the border and the transparent pixels are
      kept; an interior visible pixel becomes opaque black exactly when a
      side neighbour is transparent or differs by a channel sum above 80. */
  method DetectAndEnhanceContours(img: seq<Rgba>, w: nat, h: nat) returns (out: seq<Rgba>)
    requires IsImage(img, w, h)
    ensures |out| == |img|
    ensures forall p :: 0 <= p < |img| ==>
      out[p] == if Interior(w, h, p % w, p / w) && IsContourPixel(img, w, h, p % w, p / w)
                then Black else img[p]
    ensures forall p :: 0 <= p < |img| ==> out[p] == img[p] || (out[p] == Black && img[p].a >= 20)
  {
    out := UpdateInterior(img, w, h, (x, y) => ContourAt(img, w, h, x, y));
    forall p | 0 <= p < |img| && Interior(w, h, p % w, p / w)
      ensures out[p] == if IsContourPixel(img, w, h, p % w, p / w) then Black else img[p]
      ensures out[p] == img[p] || (out[p] == Black && img[p].a >= 20)
    {
      var x, y := p % w, p / w;
      AtIndex(img, w, h, p);
      ScanDiffExceeds(img, w, h, img[p], Neighbours4(x, y), 0);
    }
  }

  // ------------------------------------------------------------ quantizing

  /** `0.3 dr² + 0.59 dg² + 0.11 db²` scaled by 100.  The source compares
      square roots of the unscaled sum; the square root is increasing and
      the scale positive, so the order of candidates is the same. */
  function WeightedDistance(r: byte, g: byte, b: byte, c: PaletteColor): (d: nat)
    ensures d == 0 <==> c.r == r && c.g == g && c.b == b
  {
    30 * Square(r - c.r) + 59 * Square(g - c.g) + 11 * Square(b - c.b)
  }

  function PaletteDistance(r: byte, g: byte, b: byte): PaletteColor -> real
  {
    (c: PaletteColor) => WeightedDistance(r, g, b, c) as real
  }

  /** The palette entry the scan settles on: no entry is nearer, and every
      earlier entry is strictly farther. */
  function Closest(r: byte, g: byte, b: byte, palette: seq<PaletteColor>): (c: PaletteColor)
    requires |palette| > 0
    ensures c in palette
    ensures forall q :: q in palette ==> WeightedDistance(r, g, b, c) <= WeightedDistance(r, g, b, q)
    ensures exists i ::
      0 <= i < |palette| && c == palette[i] &&
      (forall j :: 0 <= j < i ==> WeightedDistance(r, g, b, c) < WeightedDistance(r, g, b, palette[j]))
  {
    Nearest(palette, PaletteDistance(r, g, b))
  }

  /** findClosestPaletteColor. */
  method FindClosestPaletteColor(r: byte, g: byte, b: byte, palette: seq<PaletteColor>)
    returns (closest: PaletteColor)
    requires |palette| > 0
    ensures closest == Closest(r, g, b, palette)
  {
    var i := ClosestIndex(palette, PaletteDistance(r, g, b));
    NearestAt(palette, PaletteDistance(r, g, b), i);
    closest := palette[i];
  }

  /** The rule for one pixel of quantizeToLimitedPalette. */
  function Quantized(p: Rgba): Rgba
  {
    if p.a < 20 then ClearWhite
    else if p.r < 30 && p.g < 30 && p.b < 30 then Black
    else
      var c := Closest(p.r, p.g, p.b, CrossStitchPalette());
      Rgba(c.r, c.g, c.b, 255)
  }

  /** quantizeToLimitedPalette: one pass over the pixels. */
  method QuantizeToLimitedPalette(img: seq<Rgba>) returns (out: seq<Rgba>)
    ensures |out| == |img|
    ensures forall i :: 0 <= i < |img| ==> out[i] == Quantized(img[i])
  {
    var palette := CrossStitchPalette();
    var a := new Rgba[|img|];
    var i := 0;
    while i < a.Length
      invariant 0 <= i <= a.Length
      invariant forall j :: 0 <= j < i ==> a[j] == Quantized(img[j])
    {
      var p := img[i];
      if p.a < 20 {
        a[i] := ClearWhite;
      } else if p.r < 30 && p.g < 30 && p.b < 30 {
        a[i] := Black;
      } else {
        var closest := FindClosestPaletteColor(p.r, p.g, p.b, palette);
        a[i] := Rgba(closest.r, closest.g, closest.b, 255);
      }
      i := i + 1;
    }
    out := a[..];
  }

  /** What the palette stage guarantees: a pixel is transparent white, or
      opaque with the RGB of a palette entry. */
  predicate IsStitchPixel(p: Rgba)
  {
    p == ClearWhite || (p.a == 255 && InPalette(p))
  }

  /** Every quantized pixel is a stitch pixel, and a quantized pixel is
      opaque exactly when the input had alpha at least 20. */
  lemma QuantizedIsStitchPixel(p: Rgba)
    ensures IsStitchPixel(Quantized(p))
    ensures Quantized(p).a == (if p.a < 20 then 0 else 255)
  {
    var palette := CrossStitchPalette();
    if p.a >= 20 && p.r < 30 && p.g < 30 && p.b < 30 {
      assert palette[0] in palette;
    }
  }

  // ------------------------------------------------------- post-processing

  /** A bright (brightness above 200) visible pixel with at least four dark
      neighbours among the eight. */
  predicate IsHighlight(img: seq<Rgba>, w: nat, h: nat, x: int, y: int)
  {
    var p := Get(img, w, h, x, y);
    p.a >= 20 && Intensity(p) > 600 && CountWhere(Ring3(x, y), Dark(img, w, h)) >= 4
  }

  function Whitened(p: Rgba): Rgba
  {
    Rgba(255, 255, 255, p.a)
  }

  function PostAt(img: seq<Rgba>, w: nat, h: nat, x: int, y: int): Rgba
  {
    var p := Get(img, w, h, x, y);
    if IsHighlight(img, w, h, x, y) then Whitened(p) else p
  }

  /** postProcess: interior highlights turn white with their alpha kept;
      every other pixel is copied. */
  method PostProcess(img: seq<Rgba>, w: nat, h: nat) returns (out: seq<Rgba>)
    requires IsImage(img, w, h)
    ensures |out| == |img|
    ensures forall p :: 0 <= p < |img| ==>
      out[p] == if Interior(w, h, p % w, p / w) && IsHighlight(img, w, h, p % w, p / w)
                then Whitened(img[p]) else img[p]
    ensures forall p :: 0 <= p < |img| ==>
      out[p] == img[p] || (out[p] == Whitened(img[p]) && img[p].a >= 20)
  {
    out := UpdateInterior(img, w, h, (x, y) => PostAt(img, w, h, x, y));
    forall p | 0 <= p < |img| && Interior(w, h, p % w, p / w)
      ensures out[p] == if IsHighlight(img, w, h, p % w, p / w) then Whitened(img[p]) else img[p]
      ensures out[p] == img[p] || (out[p] == Whitened(img[p]) && img[p].a >= 20)
    {
      AtIndex(img, w, h, p);
    }
  }

  /** Whitening keeps a stitch pixel a stitch pixel, since white is in the
      palette and only visible pixels are whitened. */
  lemma WhitenedIsStitchPixel(p: Rgba)
    requires IsStitchPixel(p) && p.a >= 20
    ensures IsStitchPixel(Whitened(p))
  {
    assert CrossStitchPalette()[4] in CrossStitchPalette();
  }

  // ------------------------------------------------------------ the whole

  /** One pixel through the four stages. */
  lemma StagesOfOnePixel(p: Rgba, cleaned: Rgba, contoured: Rgba, quantized: Rgba, post: Rgba)
    requires cleaned == Cleaned(p)
    requires contoured == cleaned || (contoured == Black && cleaned.a >= 20)
    requires quantized == Quantized(contoured)
    requires post == quantized || (post == Whitened(quantized) && quantized.a >= 20)
    ensures IsStitchPixel(post)
    ensures post.a == 255 <==> !IsBackground(p)
  {
    QuantizedIsStitchPixel(contoured);
    if post != quantized {
      WhitenedIsStitchPixel(quantized);
    }
  }

  /** professionalCrossStitchConversion after its resize step: every pixel
      of the result is transparent white or an opaque palette colour, and
      it is opaque exactly when the cleaned pixel was visible. */
  method ProfessionalConversion(img: seq<Rgba>, w: nat, h: nat) returns (out: seq<Rgba>)
    requires IsImage(img, w, h)
    ensures |out| == |img|
    ensures forall p :: 0 <= p < |out| ==> IsStitchPixel(out[p])
    ensures forall p :: 0 <= p < |out| ==> (out[p].a == 255 <==> !IsBackground(img[p]))
  {
    var cleaned := RemoveBackground(img);
    var withContours := DetectAndEnhanceContours(cleaned, w, h);
    var quantized := QuantizeToLimitedPalette(withContours);
    out := PostProcess(quantized, w, h);
    forall p | 0 <= p < |out|
      ensures IsStitchPixel(out[p])
      ensures out[p].a == 255 <==> !IsBackground(img[p])
    {
      StagesOfOnePixel(img[p], cleaned[p], withContours[p], quantized[p], out[p]);
    }
  }

  // ------------------------------------------------------------------ grid

  function GridValue(img: seq<Rgba>, w: nat, h: nat, x: int, y: int): Option<string>
  {
    var p := Get(img, w, h, x, y);
    if p.a < 20 then None else Some(Hex.ColorHex(p.r, p.g, p.b))
  }

  /** convertToGrid: a cell for every pixel with alpha at least 20, holding
      `'#'` and two lower-case hex digits per channel, which decode back to
      the pixel's RGB. */
  method ConvertToGrid(img: seq<Rgba>, w: nat, h: nat) returns (grid: map<Cell, string>)
    requires IsImage(img, w, h)
    ensures forall c :: c in grid <==> InBounds(w, h, c.x, c.y) && At(img, w, h, c.x, c.y).a >= 20
    ensures forall c :: c in grid ==>
      var p := At(img, w, h, c.x, c.y);
      grid[c] == Hex.ColorHex(p.r, p.g, p.b) && Hex.HexToRgb(grid[c]) == Some((p.r, p.g, p.b))
  {
    grid := CollectCells(0, w, 0, h, (x, y) => GridValue(img, w, h, x, y));
    forall c
      ensures c in grid <==> InBounds(w, h, c.x, c.y) && At(img, w, h, c.x, c.y).a >= 20
      ensures c in grid ==> var p := At(img, w, h, c.x, c.y);
        grid[c] == Hex.ColorHex(p.r, p.g, p.b) && Hex.HexToRgb(grid[c]) == Some((p.r, p.g, p.b))
    {
      if InBounds(w, h, c.x, c.y) {
        GridValueDecodes(img, w, h, c.x, c.y);
      }
    }
  }

  /** The value of a kept pixel is its colour string, and it decodes back
      to the pixel's RGB. */
  lemma GridValueDecodes(img: seq<Rgba>, w: nat, h: nat, x: int, y: int)
    requires IsImage(img, w, h) && InBounds(w, h, x, y)
    ensures var p := At(img, w, h, x, y);
      GridValue(img, w, h, x, y).Some? <==> p.a >= 20
    ensures var p := At(img, w, h, x, y);
      GridValue(img, w, h, x, y).Some? ==>
        GridValue(img, w, h, x, y).value == Hex.ColorHex(p.r, p.g, p.b)
        && Hex.HexToRgb(Hex.ColorHex(p.r, p.g, p.b)) == Some((p.r, p.g, p.b))
  {
    var p := At(img, w, h, x, y);
    Hex.HexRoundTrip(p.r, p.g, p.b);
  }
}
