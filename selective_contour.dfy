/** The selective contour: only visible interior pixels next to a
    transparent pixel, or next to a strongly different colour that also
    differs sharply in HSV brightness or saturation, are outlined. */
module SelectiveContour {
  import opened Pixels
  import opened Raster

  // ------------------------------------------------------------------- HSV

  /** A colour in HSV, each component scaled to [0, 1]. */
  datatype Hsv = Hsv(h: real, s: real, v: real)

  function Max3(r: byte, g: byte, b: byte): (m: byte)
    ensures m >= r && m >= g && m >= b && (m == r || m == g || m == b)
  {
    if r >= g && r >= b then r else if g >= b then g else b
  }

  function Min3(r: byte, g: byte, b: byte): (m: byte)
    ensures m <= r && m <= g && m <= b && (m == r || m == g || m == b)
  {
    if r <= g && r <= b then r else if g <= b then g else b
  }

  /** JavaScript's `%` on numbers: the remainder takes the sign of the
      dividend. */
  function Trunc(x: real): int
  {
    if x >= 0.0 then x.Floor else -((-x).Floor)
  }

  function JsRem(a: real, m: real): real
    requires m != 0.0
  {
    a - m * Trunc(a / m) as real
  }

  /** The hue sector offset before scaling to degrees. */
  function HueSector(r: byte, g: byte, b: byte): real
  {
    var mx, mn := Max3(r, g, b), Min3(r, g, b);
    var d := mx - mn;
    if d == 0 then 0.0
    else if mx == r then JsRem((g - b) as real / d as real, 6.0)
    else if mx == g then (b - r) as real / d as real + 2.0
    else (r - g) as real / d as real + 4.0
  }

  /** rgbToHsv: the hue rounded to whole degrees and moved into
      [0, 360) before scaling, the saturation `(max - min) / max` (0 for
      black) and the value `max / 255`.  Dividing every channel by 255
      first changes none of the comparisons or ratios. */
  function RgbToHsv(r: byte, g: byte, b: byte): (c: Hsv)
    ensures c.v == Max3(r, g, b) as real / 255.0
    ensures c.s == if Max3(r, g, b) == 0 then 0.0
                   else (Max3(r, g, b) - Min3(r, g, b)) as real / Max3(r, g, b) as real
  {
    var mx, mn := Max3(r, g, b), Min3(r, g, b);
    var deg := Round(HueSector(r, g, b) * 60.0);
    var hue := if deg < 0 then deg + 360 else deg;
    Hsv(hue as real / 360.0,
        if mx == 0 then 0.0 else (mx - mn) as real / mx as real,
        mx as real / 255.0)
  }

  /** A quotient of integers with `|a| <= d` lies in [-1, 1]. */
  lemma UnitQuotient(a: int, d: int)
    requires d > 0 && -d <= a <= d
    ensures -1.0 <= a as real / d as real <= 1.0
  {
    var q := a as real / d as real;
    assert q * d as real == a as real;
  }

  /** The hue sector lies in [-1, 5): red-dominant colours in [-1, 1],
      green-dominant in [1, 3], blue-dominant in [3, 5]. */
  lemma HueSectorBounds(r: byte, g: byte, b: byte)
    ensures var x := HueSector(r, g, b); -1.0 <= x <= 5.0
    ensures var mx := Max3(r, g, b); mx == r ==> -1.0 <= HueSector(r, g, b) <= 1.0
  {
    var mx, mn := Max3(r, g, b), Min3(r, g, b);
    var d := mx - mn;
    if d != 0 {
      if mx == r {
        UnitQuotient(g - b, d);
        var a := (g - b) as real / d as real;
        assert -1.0 / 6.0 <= a / 6.0 <= 1.0 / 6.0;
        assert Trunc(a / 6.0) == 0;
      } else if mx == g {
        UnitQuotient(b - r, d);
      } else {
        UnitQuotient(r - g, d);
      }
    }
  }

  /** All three components lie in [0, 1]; the hue stays below 1. */
  lemma HsvBounds(r: byte, g: byte, b: byte)
    ensures var c := RgbToHsv(r, g, b);
      0.0 <= c.h < 1.0 && 0.0 <= c.s <= 1.0 && 0.0 <= c.v <= 1.0
  {
    var c := RgbToHsv(r, g, b);
    assert 0.0 <= c.h < 1.0 by {
      HueSectorBounds(r, g, b);
      DegreeBounds(HueSector(r, g, b));
    }
    var mx, mn := Max3(r, g, b), Min3(r, g, b);
    if mx != 0 {
      UnitQuotient(mx - mn, mx);
    }
  }

  /** A sector in [-1, 5] rounds to a whole degree in [-60, 300]. */
  lemma DegreeBounds(x: real)
    requires -1.0 <= x <= 5.0
    ensures -60 <= Round(x * 60.0) <= 300
  {
    var deg := Round(x * 60.0);
    assert -60.0 <= x * 60.0 <= 300.0;
    assert -60.5 < deg as real < 300.5 + 0.5;
  }

  // -------------------------------------------------------------- features

  function AbsReal(x: real): real
  {
    if x < 0.0 then -x else x
  }

  /** isImportantFeature: brightness differing by more than 0.3,
      saturation by more than 0.4, or a dark-to-light transition. */
  predicate IsImportantFeature(p: Rgba, q: Rgba)
  {
    var c1, c2 := RgbToHsv(p.r, p.g, p.b), RgbToHsv(q.r, q.g, q.b);
    AbsReal(c1.v - c2.v) > 0.3
    || AbsReal(c1.s - c2.s) > 0.4
    || (c1.v < 0.2 && c2.v > 0.8) || (c1.v > 0.8 && c2.v < 0.2)
  }

  /** The test does not depend on the order of the two colours. */
  lemma ImportantFeatureSymmetric(p: Rgba, q: Rgba)
    ensures IsImportantFeature(p, q) <==> IsImportantFeature(q, p)
  {
  }

  /** In channel terms: the brightest channels differ by at least 77 (the
      dark-to-light transition implies that), or the saturations differ by
      more than 0.4. */
  lemma ImportantFeatureIff(p: Rgba, q: Rgba)
    ensures IsImportantFeature(p, q) <==>
      Abs(Max3(p.r, p.g, p.b) - Max3(q.r, q.g, q.b)) >= 77
      || AbsReal(RgbToHsv(p.r, p.g, p.b).s - RgbToHsv(q.r, q.g, q.b).s) > 0.4
  {
  }

  // --------------------------------------------------------------- contour

  /** A side neighbour that calls for an outline: transparent, or strongly
      different in colour in a way isImportantFeature accepts. */
  predicate Triggers(img: seq<Rgba>, w: nat, h: nat, x: int, y: int, n: Cell)
  {
    var p, q := Get(img, w, h, x, y), Get(img, w, h, n.x, n.y);
    q.a < 50 || (ColorDiff(p, q) > 150 && IsImportantFeature(p, q))
  }

  /** An interior pixel with alpha at least 50 and a triggering side
      neighbour. */
  predicate IsSelectiveContour(img: seq<Rgba>, w: nat, h: nat, x: int, y: int)
  {
    Interior(w, h, x, y) && Get(img, w, h, x, y).a >= 50
    && exists n :: n in Neighbours4(x, y) && Triggers(img, w, h, x, y, n)
  }

  /** The neighbour loop of one pixel: left, right, above, below, stopping
      at the first neighbour that calls for an outline. */
  method ShouldContour(img: seq<Rgba>, w: nat, h: nat, x: int, y: int) returns (should: bool)
    ensures should <==> exists n :: n in Neighbours4(x, y) && Triggers(img, w, h, x, y, n)
  {
    var ns := Neighbours4(x, y);
    should := false;
    var k := 0;
    while k < 4
      invariant 0 <= k <= 4
      invariant !should ==> forall j :: 0 <= j < k ==> !Triggers(img, w, h, x, y, ns[j])
      invariant should ==> exists n :: n in ns && Triggers(img, w, h, x, y, n)
    {
      var p, q := Get(img, w, h, x, y), Get(img, w, h, ns[k].x, ns[k].y);
      assert ns[k] in ns;
      if q.a < 50 {
        should := true;
        break;
      }
      if ColorDiff(p, q) > 150 {
        if IsImportantFeature(p, q) {
          should := true;
          break;
        }
      }
      k := k + 1;
    }
    if !should {
      forall n | n in ns
        ensures !Triggers(img, w, h, x, y, n)
      {
        var j :| 0 <= j < 4 && ns[j] == n;
      }
    }
  }

  /** createSelectiveContour: the interior is visited row by row; every
      pixel that should be outlined is a key, with the value true. */
  method CreateSelectiveContour(img: seq<Rgba>, w: nat, h: nat) returns (contour: map<Cell, bool>)
    requires IsImage(img, w, h)
    ensures forall c :: c in contour <==> IsSelectiveContour(img, w, h, c.x, c.y)
    ensures forall c :: c in contour ==> contour[c]
  {
    contour := map[];
    var y := 1;
    while y < h - 1
      invariant 1 <= y && (y <= h - 1 || y == 1)
      invariant forall c :: c in contour <==> IsSelectiveContour(img, w, h, c.x, c.y) && c.y < y
      invariant forall c :: c in contour ==> contour[c]
    {
      var x := 1;
      while x < w - 1
        invariant 1 <= x && (x <= w - 1 || x == 1)
        invariant forall c :: c in contour <==>
          IsSelectiveContour(img, w, h, c.x, c.y) && (c.y < y || (c.y == y && c.x < x))
        invariant forall c :: c in contour ==> contour[c]
      {
        if Get(img, w, h, x, y).a >= 50 {
          var should := ShouldContour(img, w, h, x, y);
          if should {
            contour := contour[Cell(x, y) := true];
          }
        }
        x := x + 1;
      }
      y := y + 1;
    }
  }

  /** A visible interior pixel whose side neighbours all carry its own
      opaque colour is never outlined. */
  lemma UniformIsNotContour(img: seq<Rgba>, w: nat, h: nat, x: int, y: int)
    requires Get(img, w, h, x, y).a >= 50
    requires forall n :: n in Neighbours4(x, y) ==> Get(img, w, h, n.x, n.y) == Get(img, w, h, x, y)
    ensures !IsSelectiveContour(img, w, h, x, y)
  {
    var p := Get(img, w, h, x, y);
    assert ColorDiff(p, p) == 0;
  }
}
