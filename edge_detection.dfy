/** Edge maps for backstitch outlines: Sobel on the rounded luma, a
    simplified Canny (Gaussian blur, Sobel, banding), an outline-only
    detector, and the conversion of an edge map into backstitch cells.
    Edge buffers hold one byte per pixel, row-major. */
module EdgeDetection {
  import opened Pixels
  import opened Raster
  import opened Kernels

  // ------------------------------------------------------------------ luma

  /** `Math.round(0.299 r + 0.587 g + 0.114 b)` on exact rationals. */
  function Gray(p: Rgba): (v: byte)
  {
    var n := 299 * p.r + 587 * p.g + 114 * p.b;
    assert n <= 255000;
    RoundDiv(n, 1000)
  }

  lemma GrayIsRoundedLuma(p: Rgba)
    ensures Gray(p) == Round(0.299 * p.r as real + 0.587 * p.g as real + 0.114 * p.b as real)
    ensures p.r == p.g == p.b ==> Gray(p) == p.r
  {
    var n := 299 * p.r + 587 * p.g + 114 * p.b;
    RoundDivIsRound(n, 1000);
    assert n as real / 1000.0 == 0.299 * p.r as real + 0.587 * p.g as real + 0.114 * p.b as real;
  }

  function GrayImage(img: seq<Rgba>): (g: seq<byte>)
    ensures |g| == |img|
  {
    seq(|img|, i requires 0 <= i < |img| => Gray(img[i]))
  }

  // ----------------------------------------------------------------- Sobel

  function GraySample(gray: seq<byte>, w: nat, h: nat): (int, int) -> int
  {
    (x: int, y: int) => Pick(gray, w, h, x, y, 0) as int
  }

  function GradX(gray: seq<byte>, w: nat, h: nat, x: int, y: int): int
  {
    ConvInt(GraySample(gray, w, h), x, y, SobelX, 9)
  }

  function GradY(gray: seq<byte>, w: nat, h: nat, x: int, y: int): int
  {
    ConvInt(GraySample(gray, w, h), x, y, SobelY, 9)
  }

  /** `sqrt(gx^2 + gy^2) > 50`, decided on the squares. */
  function SobelAt(gray: seq<byte>, w: nat, h: nat, x: int, y: int): byte
  {
    var gx, gy := GradX(gray, w, h, x, y), GradY(gray, w, h, x, y);
    if gx * gx + gy * gy > 2500 then 255 else 0
  }

  function SobelEdges(img: seq<Rgba>, w: nat, h: nat): (e: seq<byte>)
    ensures |e| == w * h
  {
    seq(w * h, p requires 0 <= p < w * h => if Interior(w, h, p % w, p / w) then SobelAt(GrayImage(img), w, h, p % w, p / w) else 0)
  }

  /** sobelEdgeDetection: the luma pass, then the interior gradient pass
      into a zeroed edge buffer. */
  method SobelEdgeDetection(img: seq<Rgba>, w: nat, h: nat) returns (edges: seq<byte>)
    requires IsImage(img, w, h)
    ensures edges == SobelEdges(img, w, h)
  {
    var gray := MapPixels(img, Gray);
    assert gray == GrayImage(img);
    edges := UpdateInterior(Zeros(w * h, 0 as byte), w, h, (x, y) => SobelAt(gray, w, h, x, y));
  }

  /** The luma of pixel `(x, y)`. */
  function Luma(img: seq<Rgba>, w: nat, h: nat, x: int, y: int): int
  {
    Gray(Get(img, w, h, x, y))
  }

  /** The Sobel gradients written out: weighted right-minus-left and
      bottom-minus-top luma differences, the middle row or column counting
      twice. */
  function LumaGx(img: seq<Rgba>, w: nat, h: nat, x: int, y: int): int
  {
    Luma(img, w, h, x + 1, y - 1) + 2 * Luma(img, w, h, x + 1, y) + Luma(img, w, h, x + 1, y + 1)
    - Luma(img, w, h, x - 1, y - 1) - 2 * Luma(img, w, h, x - 1, y) - Luma(img, w, h, x - 1, y + 1)
  }

  function LumaGy(img: seq<Rgba>, w: nat, h: nat, x: int, y: int): int
  {
    Luma(img, w, h, x - 1, y + 1) + 2 * Luma(img, w, h, x, y + 1) + Luma(img, w, h, x + 1, y + 1)
    - Luma(img, w, h, x - 1, y - 1) - 2 * Luma(img, w, h, x, y - 1) - Luma(img, w, h, x + 1, y - 1)
  }

  lemma GraySampleIsLuma(img: seq<Rgba>, w: nat, h: nat, i: int, j: int)
    requires IsImage(img, w, h) && InBounds(w, h, i, j)
    ensures GraySample(GrayImage(img), w, h)(i, j) == Luma(img, w, h, i, j)
  {
    IndexInRange(w, h, i, j);
  }

  lemma GradientsAreLumaDifferences(img: seq<Rgba>, w: nat, h: nat, x: int, y: int)
    requires IsImage(img, w, h) && Interior(w, h, x, y)
    ensures GradX(GrayImage(img), w, h, x, y) == LumaGx(img, w, h, x, y)
    ensures GradY(GrayImage(img), w, h, x, y) == LumaGy(img, w, h, x, y)
  {
    GradXIsLuma(img, w, h, x, y);
    GradYIsLuma(img, w, h, x, y);
  }

  lemma GradXIsLuma(img: seq<Rgba>, w: nat, h: nat, x: int, y: int)
    requires IsImage(img, w, h) && Interior(w, h, x, y)
    ensures GradX(GrayImage(img), w, h, x, y) == LumaGx(img, w, h, x, y)
  {
    SobelSums(GraySample(GrayImage(img), w, h), x, y);
    GraySampleIsLuma(img, w, h, x - 1, y - 1);
    GraySampleIsLuma(img, w, h, x + 1, y - 1);
    GraySampleIsLuma(img, w, h, x - 1, y);
    GraySampleIsLuma(img, w, h, x + 1, y);
    GraySampleIsLuma(img, w, h, x - 1, y + 1);
    GraySampleIsLuma(img, w, h, x + 1, y + 1);
  }

  lemma GradYIsLuma(img: seq<Rgba>, w: nat, h: nat, x: int, y: int)
    requires IsImage(img, w, h) && Interior(w, h, x, y)
    ensures GradY(GrayImage(img), w, h, x, y) == LumaGy(img, w, h, x, y)
  {
    SobelSums(GraySample(GrayImage(img), w, h), x, y);
    GraySampleIsLuma(img, w, h, x - 1, y - 1);
    GraySampleIsLuma(img, w, h, x, y - 1);
    GraySampleIsLuma(img, w, h, x + 1, y - 1);
    GraySampleIsLuma(img, w, h, x - 1, y + 1);
    GraySampleIsLuma(img, w, h, x, y + 1);
    GraySampleIsLuma(img, w, h, x + 1, y + 1);
  }

  /** The Sobel map is binary with a zero frame; inside it, a pixel is an
      edge exactly when the squared luma gradient exceeds 2500. */
  lemma SobelEdgesSpec(img: seq<Rgba>, w: nat, h: nat, p: nat)
    requires IsImage(img, w, h) && p < w * h
    ensures SobelEdges(img, w, h)[p] == 0 || SobelEdges(img, w, h)[p] == 255
    ensures !Interior(w, h, p % w, p / w) ==> SobelEdges(img, w, h)[p] == 0
    ensures Interior(w, h, p % w, p / w) ==>
      var gx, gy := LumaGx(img, w, h, p % w, p / w), LumaGy(img, w, h, p % w, p / w);
      (SobelEdges(img, w, h)[p] == 255 <==> gx * gx + gy * gy > 2500)
  {
    if Interior(w, h, p % w, p / w) {
      GradientsAreLumaDifferences(img, w, h, p % w, p / w);
    }
  }

  // ------------------------------------------------------------------ blur

  function BlurChannel(img: seq<Rgba>, w: nat, h: nat, x: int, y: int, c: nat): byte
    requires c < 4
  {
    Clamp(ConvInt(Sample(img, w, h, c), x, y, Gauss, 9) as real / 16.0)
  }

  function BlurAt(img: seq<Rgba>, w: nat, h: nat, x: int, y: int): Rgba
  {
    Rgba(BlurChannel(img, w, h, x, y, 0), BlurChannel(img, w, h, x, y, 1),
         BlurChannel(img, w, h, x, y, 2), BlurChannel(img, w, h, x, y, 3))
  }

  function Blurred(img: seq<Rgba>, w: nat, h: nat): (b: seq<Rgba>)
    requires IsImage(img, w, h)
    ensures |b| == |img|
  {
    seq(|img|, p requires 0 <= p < |img| => if Interior(w, h, p % w, p / w) then BlurAt(img, w, h, p % w, p / w) else Transparent)
  }

  /** gaussianBlur: a zeroed buffer whose interior pixels get the Gaussian
      average of all four channels. */
  method GaussianBlur(img: seq<Rgba>, w: nat, h: nat) returns (out: seq<Rgba>)
    requires IsImage(img, w, h)
    ensures out == Blurred(img, w, h)
  {
    out := UpdateInterior(Zeros(|img|, Transparent), w, h, (x, y) => BlurAt(img, w, h, x, y));
  }

  /** The blurred channel is the kernel-weighted sum over 16, stored with the
      byte rounding; a uniform 3x3 neighbourhood is left as it was. */
  lemma BlurChannelSpec(img: seq<Rgba>, w: nat, h: nat, x: int, y: int, c: nat)
    requires c < 4
    ensures var s := Sample(img, w, h, c);
      BlurChannel(img, w, h, x, y, c)
        == Clamp((4 * s(x, y) + 2 * Cross4(s, x, y) + s(x - 1, y - 1) + s(x + 1, y - 1)
                  + s(x - 1, y + 1) + s(x + 1, y + 1)) as real / 16.0)
    ensures var s := Sample(img, w, h, c);
      (forall i, j :: x - 1 <= i <= x + 1 && y - 1 <= j <= y + 1 ==> s(i, j) == s(x, y))
      ==> BlurChannel(img, w, h, x, y, c) == s(x, y)
  {
    var s := Sample(img, w, h, c);
    GaussSum(s, x, y);
    if forall i, j :: x - 1 <= i <= x + 1 && y - 1 <= j <= y + 1 ==> s(i, j) == s(x, y) {
      assert s(x - 1, y - 1) == s(x, y) && s(x + 1, y - 1) == s(x, y);
      assert s(x - 1, y + 1) == s(x, y) && s(x + 1, y + 1) == s(x, y);
      assert s(x, y - 1) == s(x, y) && s(x - 1, y) == s(x, y);
      assert s(x + 1, y) == s(x, y) && s(x, y + 1) == s(x, y);
      assert (16 * s(x, y)) as real / 16.0 == s(x, y) as real;
    }
  }

  // ----------------------------------------------------------------- Canny

  /** The simplified hysteresis: strong, weak or no edge. */
  function Band(e: byte, low: int, high: int): byte
  {
    if e > high then 255 else if e > low then 128 else 0
  }

  function CannyEdges(img: seq<Rgba>, w: nat, h: nat, low: int, high: int): (e: seq<byte>)
    requires IsImage(img, w, h)
    ensures |e| == w * h
  {
    var sobel := SobelEdges(Blurred(img, w, h), w, h);
    seq(w * h, i requires 0 <= i < w * h => Band(sobel[i], low, high))
  }

  /** cannyEdgeDetection: blur, Sobel, then banding. */
  method CannyEdgeDetection(img: seq<Rgba>, w: nat, h: nat, low: int, high: int) returns (result: seq<byte>)
    requires IsImage(img, w, h)
    ensures result == CannyEdges(img, w, h, low, high)
  {
    var blurred := GaussianBlur(img, w, h);
    var edges := SobelEdgeDetection(blurred, w, h);
    result := MapPixels(edges, (e: byte) => Band(e, low, high));
  }

  /** With the default thresholds 50 and 150 the banding cannot produce a
      weak edge: the Sobel map only holds 0 and 255, so Canny is exactly
      Sobel on the blurred image. */
  lemma CannyDefaultsAreSobel(img: seq<Rgba>, w: nat, h: nat)
    requires IsImage(img, w, h)
    ensures CannyEdges(img, w, h, 50, 150) == SobelEdges(Blurred(img, w, h), w, h)
    ensures forall i :: 0 <= i < w * h ==> CannyEdges(img, w, h, 50, 150)[i] in {0, 255}
  {
    var b := Blurred(img, w, h);
    forall i | 0 <= i < w * h
      ensures CannyEdges(img, w, h, 50, 150)[i] == SobelEdges(b, w, h)[i]
    {
      SobelEdgesSpec(b, w, h, i);
    }
  }

  // ---------------------------------------------------------- outline only

  /** A pixel with a side neighbour off the image, or one whose colour
      differs by a channel sum above 300.  Alpha is not read. */
  function OutlineAt(img: seq<Rgba>, w: nat, h: nat, x: int, y: int): byte
  {
    if exists n :: n in Neighbours4(x, y) &&
         (!InBounds(w, h, n.x, n.y) || ColorDiff(Get(img, w, h, x, y), Get(img, w, h, n.x, n.y)) > 300)
    then 255 else 0
  }

  function OutlineEdges(img: seq<Rgba>, w: nat, h: nat): (e: seq<byte>)
    ensures |e| == w * h
  {
    seq(w * h, p requires 0 <= p < w * h => OutlineAt(img, w, h, p % w, p / w))
  }

  /** detectOutlineOnly: every pixel is visited. */
  method DetectOutlineOnly(img: seq<Rgba>, w: nat, h: nat) returns (edges: seq<byte>)
    requires IsImage(img, w, h)
    ensures edges == OutlineEdges(img, w, h)
  {
    edges := Tabulate(w, h, (x, y) => OutlineAt(img, w, h, x, y));
  }

  /** Every pixel of the first or last row or column is an outline pixel;
      an interior one is iff a side neighbour differs by more than 300. */
  lemma OutlineSpec(img: seq<Rgba>, w: nat, h: nat, p: nat)
    requires IsImage(img, w, h) && p < w * h
    ensures !Interior(w, h, p % w, p / w) ==> OutlineEdges(img, w, h)[p] == 255
    ensures Interior(w, h, p % w, p / w) ==>
      (OutlineEdges(img, w, h)[p] == 255 <==>
       exists n :: n in Neighbours4(p % w, p / w) && ColorDiff(img[p], Get(img, w, h, n.x, n.y)) > 300)
  {
    var x, y := p % w, p / w;
    AtIndex(img, w, h, p);
    var ns := Neighbours4(x, y);
    if x == 0 { assert !InBounds(w, h, ns[0].x, ns[0].y); }
    else if x == w - 1 { assert !InBounds(w, h, ns[1].x, ns[1].y); }
    else if y == 0 { assert !InBounds(w, h, ns[2].x, ns[2].y); }
    else if y == h - 1 { assert !InBounds(w, h, ns[3].x, ns[3].y); }
  }

  /** Alpha is never consulted: two images with the same colours have the
      same outline. */
  lemma OutlineIgnoresAlpha(img: seq<Rgba>, img2: seq<Rgba>, w: nat, h: nat)
    requires IsImage(img, w, h) && |img2| == |img|
    requires forall i :: 0 <= i < |img| ==> img[i].(a := 0) == img2[i].(a := 0)
    ensures OutlineEdges(img, w, h) == OutlineEdges(img2, w, h)
  {
    forall x, y | InBounds(w, h, x, y)
      ensures ColorDiff(Get(img, w, h, x, y), Get(img2, w, h, x, y)) == 0
    {
      IndexInRange(w, h, x, y);
    }
    forall p | 0 <= p < w * h
      ensures OutlineAt(img, w, h, p % w, p / w) == OutlineAt(img2, w, h, p % w, p / w)
    {
      var x, y := p % w, p / w;
      AtIndex(img, w, h, p);
      forall n | n in Neighbours4(x, y)
        ensures ColorDiff(Get(img, w, h, x, y), Get(img, w, h, n.x, n.y))
             == ColorDiff(Get(img2, w, h, x, y), Get(img2, w, h, n.x, n.y))
      {
        if InBounds(w, h, n.x, n.y) { IndexInRange(w, h, n.x, n.y); }
        IndexInRange(w, h, x, y);
      }
    }
  }

  // ------------------------------------------------------------ backstitch

  /** edgesToBackstitch: a key for every pixel whose edge value is above 0,
      each mapped to true. */
  method EdgesToBackstitch(edges: seq<byte>, w: nat, h: nat) returns (backstitch: map<Cell, bool>)
    requires IsImage(edges, w, h)
    ensures forall c :: c in backstitch <==> InBounds(w, h, c.x, c.y) && At(edges, w, h, c.x, c.y) > 0
    ensures forall c :: c in backstitch ==> backstitch[c]
  {
    backstitch := CollectCells(0, w, 0, h,
      (x, y) => if Pick(edges, w, h, x, y, 0) > 0 then Some(true) else None);
  }

  // -------------------------------------------------------------- pipeline

  datatype Processed = Processed(edges: seq<byte>, backstitch: map<Cell, bool>, algorithm: string)

  /** processImageProfessional: "outline" and "canny" select those
      detectors, any other name selects Sobel; the backstitch cells are the
      nonzero edges. */
  method ProcessImageProfessional(img: seq<Rgba>, w: nat, h: nat, algorithm: string) returns (r: Processed)
    requires IsImage(img, w, h)
    ensures r.algorithm == algorithm
    ensures r.edges == if algorithm == "outline" then OutlineEdges(img, w, h)
                       else if algorithm == "canny" then CannyEdges(img, w, h, 50, 150)
                       else SobelEdges(img, w, h)
    ensures forall c :: c in r.backstitch <==> InBounds(w, h, c.x, c.y) && At(r.edges, w, h, c.x, c.y) > 0
    ensures forall c :: c in r.backstitch ==> r.backstitch[c]
  {
    var edges;
    if algorithm == "outline" {
      edges := DetectOutlineOnly(img, w, h);
    } else if algorithm == "canny" {
      edges := CannyEdgeDetection(img, w, h, 50, 150);
    } else {
      edges := SobelEdgeDetection(img, w, h);
    }
    var backstitch := EdgesToBackstitch(edges, w, h);
    r := Processed(edges, backstitch, algorithm);
  }
}
