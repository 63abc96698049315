/** The "dominant pixel" area resamplers.  Each target pixel sums the four
    channels and counts the pixels of its source rectangle, and keeps the
    first pixel whose score (brightness or local contrast) beats the running
    best, which starts at 0 with the placeholder pixel (0, 0, 0, 255).  The
    target pixel is that dominant pixel when a criterion on the tally holds,
    and the rounded per-channel mean otherwise. */
module Dominant {
  import opened Pixels
  import opened Raster

  /** The running state of one footprint. */
  datatype Tally = Tally(r: int, g: int, b: int, a: int, count: nat, best: int, pick: Rgba)

  const Placeholder := Rgba(0, 0, 0, 255)

  const Start := Tally(0, 0, 0, 0, 0, 0, Placeholder)

  /** One source pixel with score `k` added to the tally. */
  function Visit(t: Tally, p: Rgba, k: int): Tally
  {
    Tally(t.r + p.r, t.g + p.g, t.b + p.b, t.a + p.a, t.count + 1,
          if k > t.best then k else t.best, if k > t.best then p else t.pick)
  }

  /** The loop body over source pixel `(x, y)` with scores `score`. */
  function Tallier(src: seq<Rgba>, sw: nat, sh: nat, score: (int, int) -> int): (Tally, int, int) -> Tally
  {
    (t: Tally, x: int, y: int) => Visit(t, Get(src, sw, sh, x, y), score(x, y))
  }

  function SumOf(t: Tally, c: nat): int
    requires c < 4
  {
    if c == 0 then t.r else if c == 1 then t.g else if c == 2 then t.b else t.a
  }

  /** `Math.round(sum / count)` per channel.  With no pixel counted the
      quotients are NaN, which a byte store turns into 0. */
  function Mean(t: Tally): Rgba
  {
    if t.count > 0
    then Rgba(ClampInt(RoundDiv(t.r, t.count)), ClampInt(RoundDiv(t.g, t.count)),
              ClampInt(RoundDiv(t.b, t.count)), ClampInt(RoundDiv(t.a, t.count)))
    else Transparent
  }

  /** The target pixel: the dominant pixel's four channels when `dominates`
      holds of the tally, the means otherwise. */
  function Emit(dominates: Tally -> bool): Tally -> Rgba
  {
    (t: Tally) => if dominates(t) then t.pick else Mean(t)
  }

  // ------------------------------------------------------ reference facts

  /** The scores of the cells, in visiting order. */
  function Scores(cs: seq<Cell>, score: (int, int) -> int): (ks: seq<int>)
    ensures |ks| == |cs| && forall i :: 0 <= i < |cs| ==> ks[i] == score(cs[i].x, cs[i].y)
  {
    seq(|cs|, i requires 0 <= i < |cs| => score(cs[i].x, cs[i].y))
  }

  /** `i` is the first index holding the greatest score. */
  predicate IsFirstMax(ks: seq<int>, i: int)
  {
    0 <= i < |ks|
    && (forall j :: 0 <= j < |ks| ==> ks[j] <= ks[i])
    && (forall j :: 0 <= j < i ==> ks[j] < ks[i])
  }

  /** The pixels of the cells, in visiting order. */
  function PixelsOf(src: seq<Rgba>, sw: nat, sh: nat, cs: seq<Cell>): (ps: seq<Rgba>)
    ensures |ps| == |cs| && forall i :: 0 <= i < |cs| ==> ps[i] == Get(src, sw, sh, cs[i].x, cs[i].y)
  {
    seq(|cs|, i requires 0 <= i < |cs| => Get(src, sw, sh, cs[i].x, cs[i].y))
  }

  /** The best score and kept pixel of a tally over pixels `ps` with scores
      `ks`: the greatest score and the pixel of its first occurrence when
      some score is positive, 0 and the placeholder otherwise. */
  ghost predicate Summarises(t: Tally, ks: seq<int>, ps: seq<Rgba>)
  {
    |ks| == |ps| && t.count == |ks| && t.best >= 0
    && (forall j :: 0 <= j < |ks| ==> ks[j] <= t.best)
    && (t.best > 0 ==> exists i :: IsFirstMax(ks, i) && ks[i] == t.best && t.pick == ps[i])
    && (t.best == 0 ==> t.pick == Placeholder)
  }

  lemma VisitSummarises(t: Tally, ks: seq<int>, ps: seq<Rgba>, k: int, p: Rgba)
    requires Summarises(t, ks, ps)
    ensures Summarises(Visit(t, p, k), ks + [k], ps + [p])
  {
    var ks', ps' := ks + [k], ps + [p];
    var n := |ks|;
    if k > t.best {
      assert IsFirstMax(ks', n);
    } else if t.best > 0 {
      var i :| IsFirstMax(ks, i) && ks[i] == t.best && t.pick == ps[i];
      assert IsFirstMax(ks', i);
    }
  }

  /** The tally counts every cell, and its best score is the greatest score
      when some score is positive and 0 otherwise.  When it is positive the
      kept pixel is the one at the first cell holding it; otherwise the
      placeholder is kept. */
  lemma {:induction false} TallyFacts(src: seq<Rgba>, sw: nat, sh: nat, score: (int, int) -> int, cs: seq<Cell>)
    ensures Summarises(Fold(cs, Start, Tallier(src, sw, sh, score)), Scores(cs, score), PixelsOf(src, sw, sh, cs))
  {
    if cs != [] {
      var n := |cs| - 1;
      var prev := Fold(cs[..n], Start, Tallier(src, sw, sh, score));
      TallyFacts(src, sw, sh, score, cs[..n]);
      assert Scores(cs, score) == Scores(cs[..n], score) + [score(cs[n].x, cs[n].y)];
      assert PixelsOf(src, sw, sh, cs) == PixelsOf(src, sw, sh, cs[..n]) + [Get(src, sw, sh, cs[n].x, cs[n].y)];
      VisitSummarises(prev, Scores(cs[..n], score), PixelsOf(src, sw, sh, cs[..n]),
                      score(cs[n].x, cs[n].y), Get(src, sw, sh, cs[n].x, cs[n].y));
    }
  }

  /** Channel sums of pixels whose channel `c` lies in `[lo, hi]` lie
      between `lo` and `hi` times the count. */
  lemma {:induction false} TallySums(src: seq<Rgba>, sw: nat, sh: nat, score: (int, int) -> int,
                                     cs: seq<Cell>, c: nat, lo: int, hi: int)
    requires c < 4
    requires forall i :: 0 <= i < |cs| ==> lo <= Channel(Get(src, sw, sh, cs[i].x, cs[i].y), c) <= hi
    ensures var t := Fold(cs, Start, Tallier(src, sw, sh, score));
      lo * t.count <= SumOf(t, c) <= hi * t.count
  {
    if cs != [] {
      var n := |cs| - 1;
      var prev := Fold(cs[..n], Start, Tallier(src, sw, sh, score));
      TallySums(src, sw, sh, score, cs[..n], c, lo, hi);
      var p := Get(src, sw, sh, cs[n].x, cs[n].y);
      var t := Visit(prev, p, score(cs[n].x, cs[n].y));
      assert Fold(cs, Start, Tallier(src, sw, sh, score)) == t;
      assert SumOf(t, c) == SumOf(prev, c) + Channel(p, c);
      assert lo * (prev.count + 1) == lo * prev.count + lo;
      assert hi * (prev.count + 1) == hi * prev.count + hi;
    }
  }

  /** Each mean channel lies in any range that holds every summed value. */
  lemma MeanBetween(t: Tally, c: nat, lo: int, hi: int)
    requires c < 4 && t.count > 0 && 0 <= lo && hi <= 255
    requires lo * t.count <= SumOf(t, c) <= hi * t.count
    ensures lo <= Channel(Mean(t), c) <= hi
  {
    RoundDivBetween(SumOf(t, c), t.count, lo, hi);
  }

  /** The emitted pixel of a non-empty footprint is either a pixel of the
      footprint or has every channel between that channel's least and
      greatest value in the footprint. */
  lemma {:induction false} EmitBetween(src: seq<Rgba>, sw: nat, sh: nat, score: (int, int) -> int, dominates: Tally -> bool,
                    cs: seq<Cell>, c: nat, lo: int, hi: int)
    requires c < 4 && |cs| > 0 && 0 <= lo && hi <= 255
    requires forall i :: 0 <= i < |cs| ==> lo <= Channel(Get(src, sw, sh, cs[i].x, cs[i].y), c) <= hi
    ensures var t := Fold(cs, Start, Tallier(src, sw, sh, score));
      !dominates(t) ==> lo <= Channel(Emit(dominates)(t), c) <= hi
  {
    TallyFacts(src, sw, sh, score, cs);
    TallySums(src, sw, sh, score, cs, c, lo, hi);
    var t := Fold(cs, Start, Tallier(src, sw, sh, score));
    MeanBetween(t, c, lo, hi);
  }

  /** The emitted pixel is the first pixel with the greatest score when the
      criterion holds (which it only does with a positive best score), and
      the means otherwise. */
  lemma {:induction false} EmitSpec(src: seq<Rgba>, sw: nat, sh: nat, score: (int, int) -> int, dominates: Tally -> bool, cs: seq<Cell>)
    requires var t := Fold(cs, Start, Tallier(src, sw, sh, score)); dominates(t) ==> t.best > 0
    ensures var t := Fold(cs, Start, Tallier(src, sw, sh, score));
      var q := Emit(dominates)(t);
      t.count == |cs|
      && (dominates(t) ==> exists i :: IsFirstMax(Scores(cs, score), i) && q == Get(src, sw, sh, cs[i].x, cs[i].y))
      && (!dominates(t) ==> q == Mean(t))
  {
    TallyFacts(src, sw, sh, score, cs);
    var t := Fold(cs, Start, Tallier(src, sw, sh, score));
    if dominates(t) {
      var i :| IsFirstMax(Scores(cs, score), i) && t.pick == PixelsOf(src, sw, sh, cs)[i];
      assert Emit(dominates)(t) == Get(src, sw, sh, cs[i].x, cs[i].y);
    }
  }

  /** `best > mean * (num / den)` with the mean `sum / count`, in integers. */
  lemma RatioTest(best: int, sum: int, count: int, num: int, den: int)
    requires count > 0 && den > 0
    ensures best as real > (sum as real / count as real) * (num as real / den as real)
        <==> den * best * count > num * sum
  {
    var m := sum as real / count as real;
    var k := num as real / den as real;
    var c := count as real;
    assert m * c == sum as real;
    assert k * den as real == num as real;
    var lhs := (den * best * count) as real;
    var rhs := (num * sum) as real;
    assert lhs == den as real * c * best as real;
    assert rhs == (k * den as real) * (m * c);
    assert rhs == den as real * c * (m * k);
    ScaleLess(m * k, best as real, den as real * c);
  }

  lemma ScaleLess(a: real, b: real, t: real)
    requires t > 0.0
    ensures a < b <==> t * a < t * b
  {
    assert t * b - t * a == t * (b - a);
  }

  /** Channel sums never go negative. */
  lemma {:induction false} NonNegativeSums(src: seq<Rgba>, sw: nat, sh: nat, score: (int, int) -> int, cs: seq<Cell>)
    ensures var t := Fold(cs, Start, Tallier(src, sw, sh, score));
      t.r >= 0 && t.g >= 0 && t.b >= 0 && t.a >= 0
  {
    if cs != [] {
      var n := |cs| - 1;
      var prev := Fold(cs[..n], Start, Tallier(src, sw, sh, score));
      NonNegativeSums(src, sw, sh, score, cs[..n]);
      assert Fold(cs, Start, Tallier(src, sw, sh, score))
          == Visit(prev, Get(src, sw, sh, cs[n].x, cs[n].y), score(cs[n].x, cs[n].y));
    }
  }
}
