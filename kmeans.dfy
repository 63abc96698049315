/** K-means colour reduction: pixels are assigned to their nearest
    centroid, centroids move to the rounded mean of their cluster, and the
    iteration stops after a fixed number of rounds or once no centroid
    moves.  A second operation maps every pixel of an image to its nearest
    colour of a palette. */
module KMeans {
  import opened Pixels
  import opened Select

  function Component(p: Rgb, c: nat): byte
    requires c < 3
  {
    if c == 0 then p.r else if c == 1 then p.g else p.b
  }

  /** The square of euclideanDistance.  The square root is increasing, so
      comparing squares orders candidates exactly as the distances do. */
  function Distance2(a: Rgb, b: Rgb): (d: nat)
    ensures d == 0 <==> a == b
  {
    Square(a.r - b.r) + Square(a.g - b.g) + Square(a.b - b.b)
  }

  lemma Distance2Symmetric(a: Rgb, b: Rgb)
    ensures Distance2(a, b) == Distance2(b, a)
  {
    assert Square(a.r - b.r) == Square(b.r - a.r);
    assert Square(a.g - b.g) == Square(b.g - a.g);
    assert Square(a.b - b.b) == Square(b.b - a.b);
  }

  function DistTo(p: Rgb): Rgb -> real
  {
    (q: Rgb) => Distance2(p, q) as real
  }

  // ------------------------------------------------------------ assignment

  /** The index of the centroid a pixel joins: the first one at minimal
      distance. */
  function Assign(p: Rgb, cs: seq<Rgb>): nat
    requires |cs| > 0
  {
    FirstMin(Distances(cs, DistTo(p)))
  }

  /** Cluster `j`: the pixels assigned to centroid `j`, in pixel order. */
  function Cluster(xs: seq<Rgb>, cs: seq<Rgb>, j: nat): seq<Rgb>
    requires |cs| > 0
  {
    if |xs| == 0 then []
    else
      var last := xs[|xs| - 1];
      Cluster(xs[..|xs| - 1], cs, j) + (if Assign(last, cs) == j then [last] else [])
  }

  /** A pixel is in cluster `j` exactly when it is one of the pixels and
      centroid `j` is the first nearest to it. */
  lemma {:induction false} ClusterMembers(xs: seq<Rgb>, cs: seq<Rgb>, j: nat)
    requires |cs| > 0
    ensures forall q :: q in Cluster(xs, cs, j) <==> q in xs && Assign(q, cs) == j
  {
    if |xs| > 0 {
      var init := xs[..|xs| - 1];
      ClusterMembers(init, cs, j);
      assert xs == init + [xs[|xs| - 1]];
    }
  }

  /** The assignment loop: every pixel is pushed onto the cluster of the
      centroid its distance scan ends on. */
  method AssignClusters(xs: seq<Rgb>, cs: seq<Rgb>) returns (clusters: seq<seq<Rgb>>)
    requires |cs| > 0
    ensures |clusters| == |cs|
    ensures forall j :: 0 <= j < |cs| ==> clusters[j] == Cluster(xs, cs, j)
  {
    clusters := seq(|cs|, j => []);
    var i := 0;
    while i < |xs|
      invariant 0 <= i <= |xs|
      invariant |clusters| == |cs|
      invariant forall j :: 0 <= j < |cs| ==> clusters[j] == Cluster(xs[..i], cs, j)
    {
      var best := ClosestIndex(cs, DistTo(xs[i]));
      assert xs[..i + 1][..i] == xs[..i];
      clusters := clusters[best := clusters[best] + [xs[i]]];
      i := i + 1;
    }
    assert xs[..i] == xs;
  }

  // --------------------------------------------------------------- update

  function ChannelSum(xs: seq<Rgb>, c: nat): (s: nat)
    requires c < 3
  {
    if |xs| == 0 then 0 else ChannelSum(xs[..|xs| - 1], c) + Component(xs[|xs| - 1], c)
  }

  /** A sum of channels of pixels all within `[lo, hi]` lies between `lo`
      and `hi` times their number. */
  lemma {:induction false} ChannelSumRange(xs: seq<Rgb>, c: nat, lo: int, hi: int)
    requires c < 3
    requires forall i :: 0 <= i < |xs| ==> lo <= Component(xs[i], c) <= hi
    ensures lo * |xs| <= ChannelSum(xs, c) <= hi * |xs|
  {
    if |xs| > 0 {
      var n := |xs| - 1;
      var init := xs[..n];
      assert forall i :: 0 <= i < n ==> init[i] == xs[i];
      ChannelSumRange(init, c, lo, hi);
      var v := Component(xs[n], c);
      assert ChannelSum(xs, c) == ChannelSum(init, c) + v;
      assert lo <= v <= hi;
      assert lo * (n + 1) == lo * n + lo;
      assert hi * (n + 1) == hi * n + hi;
    }
  }

  /** The rounded channel mean `Math.round(sum / n)`. */
  function MeanChannel(xs: seq<Rgb>, c: nat): (m: byte)
    requires c < 3 && |xs| > 0
    ensures |xs| * (2 * m - 1) <= 2 * ChannelSum(xs, c) < |xs| * (2 * m + 1)
  {
    ChannelSumRange(xs, c, 0, 255);
    RoundDivBetween(ChannelSum(xs, c), |xs|, 0, 255);
    RoundDiv(ChannelSum(xs, c), |xs|)
  }

  function Mean(xs: seq<Rgb>): Rgb
    requires |xs| > 0
  {
    Rgb(MeanChannel(xs, 0), MeanChannel(xs, 1), MeanChannel(xs, 2))
  }

  /** The mean of a cluster whose channel `c` stays within `[lo, hi]` has
      its channel `c` within `[lo, hi]` too. */
  lemma MeanInRange(xs: seq<Rgb>, c: nat, lo: int, hi: int)
    requires c < 3 && |xs| > 0
    requires forall i :: 0 <= i < |xs| ==> lo <= Component(xs[i], c) <= hi
    ensures lo <= Component(Mean(xs), c) <= hi
  {
    ChannelSumRange(xs, c, lo, hi);
    RoundDivBetween(ChannelSum(xs, c), |xs|, lo, hi);
  }

  /** A cluster of copies of one colour has that colour as its mean. */
  lemma MeanOfCopies(xs: seq<Rgb>, p: Rgb)
    requires |xs| > 0 && forall i :: 0 <= i < |xs| ==> xs[i] == p
    ensures Mean(xs) == p
  {
    MeanInRange(xs, 0, p.r, p.r);
    MeanInRange(xs, 1, p.g, p.g);
    MeanInRange(xs, 2, p.b, p.b);
  }

  /** The new centroid of a cluster: its mean, or the first current
      centroid for an empty cluster. */
  function NewCentroid(cluster: seq<Rgb>, first: Rgb): Rgb
  {
    if |cluster| == 0 then first else Mean(cluster)
  }

  /** One round: assign, then move every centroid. */
  function Step(xs: seq<Rgb>, cs: seq<Rgb>): (ns: seq<Rgb>)
    requires |cs| > 0
    ensures |ns| == |cs|
  {
    seq(|cs|, j requires 0 <= j < |cs| => NewCentroid(Cluster(xs, cs, j), cs[0]))
  }

  /** Every centroid moved by a distance below 1. */
  predicate Converged(cs: seq<Rgb>, ns: seq<Rgb>)
    requires |ns| == |cs|
  {
    forall j :: 0 <= j < |cs| ==> Distance2(cs[j], ns[j]) < 1
  }

  /** Centroids are whole colours, so a move below 1 is no move at all:
      the convergence test holds exactly when the round changed nothing. */
  lemma ConvergedIff(cs: seq<Rgb>, ns: seq<Rgb>)
    requires |ns| == |cs|
    ensures Converged(cs, ns) <==> cs == ns
  {
    if Converged(cs, ns) {
      forall j | 0 <= j < |cs|
        ensures cs[j] == ns[j]
      {
      }
    }
  }

  /** The centroids after at most `n` rounds, stopping after the first
      round that changed nothing. */
  function Run(xs: seq<Rgb>, cs: seq<Rgb>, n: nat): (r: seq<Rgb>)
    requires n > 0 ==> |cs| > 0
    ensures |r| == |cs|
    decreases n
  {
    if n == 0 then cs
    else
      var ns := Step(xs, cs);
      if Converged(cs, ns) then ns else Run(xs, ns, n - 1)
  }

  /** Centroids that one round leaves in place are never moved. */
  lemma RunFixedPoint(xs: seq<Rgb>, cs: seq<Rgb>, n: nat)
    requires |cs| > 0 && Step(xs, cs) == cs
    ensures Run(xs, cs, n) == cs
  {
    if n > 0 {
      ConvergedIff(cs, Step(xs, cs));
    }
  }

  /** With one centroid, one round moves it to the mean of all pixels. */
  lemma SingleStep(xs: seq<Rgb>, c: Rgb)
    requires |xs| > 0
    ensures Step(xs, [c]) == [Mean(xs)]
  {
    SingletonCluster(xs, c);
  }

  /** A single centroid ends at the mean of all pixels, whatever it starts
      from and however many rounds are allowed. */
  lemma SingleCentroid(xs: seq<Rgb>, c: Rgb, n: nat)
    requires |xs| > 0 && n > 0
    ensures Run(xs, [c], n) == [Mean(xs)]
  {
    var m := Mean(xs);
    SingleStep(xs, c);
    SingleStep(xs, m);
    RunStep(xs, [c], n, [m], Converged([c], [m]));
    RunFixedPoint(xs, [m], n - 1);
  }

  /** With one centroid, every pixel joins it. */
  lemma {:induction false} SingletonCluster(xs: seq<Rgb>, c: Rgb)
    ensures Cluster(xs, [c], 0) == xs
  {
    if |xs| > 0 {
      SingletonCluster(xs[..|xs| - 1], c);
      assert Assign(xs[|xs| - 1], [c]) == 0;
      assert xs == xs[..|xs| - 1] + [xs[|xs| - 1]];
    }
  }

  /** The reduce over a cluster, then the rounded division. */
  method ClusterMean(cluster: seq<Rgb>) returns (m: Rgb)
    requires |cluster| > 0
    ensures m == Mean(cluster)
  {
    var sr, sg, sb := 0, 0, 0;
    var i := 0;
    while i < |cluster|
      invariant 0 <= i <= |cluster|
      invariant sr == ChannelSum(cluster[..i], 0)
      invariant sg == ChannelSum(cluster[..i], 1)
      invariant sb == ChannelSum(cluster[..i], 2)
    {
      assert cluster[..i + 1][..i] == cluster[..i];
      sr, sg, sb := sr + cluster[i].r, sg + cluster[i].g, sb + cluster[i].b;
      i := i + 1;
    }
    assert cluster[..i] == cluster;
    m := Rgb(MeanChannel(cluster, 0), MeanChannel(cluster, 1), MeanChannel(cluster, 2));
    assert m.r == RoundDiv(sr, |cluster|) && m.g == RoundDiv(sg, |cluster|) && m.b == RoundDiv(sb, |cluster|);
  }

  /** The `clusters.map` of the update: each cluster's mean, or the first
      current centroid for an empty cluster. */
  method NewCentroids(xs: seq<Rgb>, cs: seq<Rgb>, clusters: seq<seq<Rgb>>) returns (ns: seq<Rgb>)
    requires |cs| > 0 && |clusters| == |cs|
    requires forall j :: 0 <= j < |cs| ==> clusters[j] == Cluster(xs, cs, j)
    ensures ns == Step(xs, cs)
  {
    ghost var step := Step(xs, cs);
    ns := [];
    var j := 0;
    while j < |cs|
      invariant 0 <= j <= |cs|
      invariant |ns| == j
      invariant forall m :: 0 <= m < j ==> ns[m] == step[m]
    {
      var c := cs[0];
      if |clusters[j]| > 0 {
        c := ClusterMean(clusters[j]);
      }
      assert c == step[j];
      ns := ns + [c];
      j := j + 1;
    }
  }

  /** The `every` of the convergence test, stopping at the first centroid
      that moved. */
  method AllConverged(cs: seq<Rgb>, ns: seq<Rgb>) returns (converged: bool)
    requires |ns| == |cs|
    ensures converged == Converged(cs, ns)
  {
    converged := true;
    var j := 0;
    while j < |cs|
      invariant 0 <= j <= |cs|
      invariant converged == forall m :: 0 <= m < j ==> Distance2(cs[m], ns[m]) < 1
    {
      if !(Distance2(cs[j], ns[j]) < 1) {
        converged := false;
        break;
      }
      j := j + 1;
    }
  }

  /** One round of `Run`, unfolded. */
  lemma RunStep(xs: seq<Rgb>, cs: seq<Rgb>, n: nat, ns: seq<Rgb>, converged: bool)
    requires n > 0 && |cs| > 0
    requires ns == Step(xs, cs) && converged == Converged(cs, ns)
    ensures Run(xs, cs, n) == if converged then ns else Run(xs, ns, n - 1)
  {
  }

  lemma RunZero(xs: seq<Rgb>, cs: seq<Rgb>)
    ensures Run(xs, cs, 0) == cs
  {
  }

  /** kMeans with the starting centroids given: no pixels give no
      centroids; otherwise the centroids after the rounds.  The closing
      NaN filter removes nothing, as every centroid is a whole colour. */
  method KMeansColors(xs: seq<Rgb>, init: seq<Rgb>, maxIterations: nat) returns (centroids: seq<Rgb>)
    requires |xs| > 0 && maxIterations > 0 ==> |init| > 0
    ensures centroids == if |xs| == 0 then [] else Run(xs, init, maxIterations)
  {
    if |xs| == 0 {
      return [];
    }
    ghost var target := Run(xs, init, maxIterations);
    centroids := init;
    var iteration := 0;
    while iteration < maxIterations
      invariant 0 <= iteration <= maxIterations
      invariant |centroids| == |init|
      invariant Run(xs, centroids, maxIterations - iteration) == target
    {
      var clusters := AssignClusters(xs, centroids);
      var ns := NewCentroids(xs, centroids, clusters);
      var converged := AllConverged(centroids, ns);
      RunStep(xs, centroids, maxIterations - iteration, ns, converged);
      centroids := ns;
      if converged {
        break;
      }
      iteration := iteration + 1;
    }
    if iteration == maxIterations {
      RunZero(xs, centroids);
    }
  }

  // ---------------------------------------------------------- quantization

  function ToRgb(p: Rgba): Rgb
  {
    Rgb(p.r, p.g, p.b)
  }

  /** The first nearest palette colour with the pixel's own alpha. */
  function Quantized(q: Rgba, colors: seq<Rgb>): Rgba
    requires |colors| > 0
  {
    var c := Nearest(colors, DistTo(ToRgb(q)));
    Rgba(c.r, c.g, c.b, q.a)
  }

  /** The colour taken is a palette colour, none is nearer, and the alpha
      is the pixel's own. */
  lemma QuantizedFacts(q: Rgba, colors: seq<Rgb>)
    requires |colors| > 0
    ensures var o := Quantized(q, colors);
      o.a == q.a && ToRgb(o) in colors
      && forall c :: c in colors ==> Distance2(ToRgb(q), ToRgb(o)) <= Distance2(ToRgb(q), c)
  {
    var c := Nearest(colors, DistTo(ToRgb(q)));
    assert ToRgb(Quantized(q, colors)) == c;
  }

  /** A pixel already in the palette keeps its colour. */
  lemma PaletteColorKept(q: Rgba, colors: seq<Rgb>)
    requires ToRgb(q) in colors
    ensures Quantized(q, colors) == q
  {
    var c := Nearest(colors, DistTo(ToRgb(q)));
    assert DistTo(ToRgb(q))(c) <= DistTo(ToRgb(q))(ToRgb(q));
  }

  /** Quantizing twice gives what quantizing once gives. */
  lemma QuantizedIdempotent(q: Rgba, colors: seq<Rgb>)
    requires |colors| > 0
    ensures Quantized(Quantized(q, colors), colors) == Quantized(q, colors)
  {
    QuantizedFacts(q, colors);
    PaletteColorKept(Quantized(q, colors), colors);
  }

  /** quantizeImage: every pixel scanned against the palette.  An empty
      palette with a non-empty image makes the source read a channel of
      `undefined`. */
  method QuantizeImage(img: seq<Rgba>, colors: seq<Rgb>) returns (out: seq<Rgba>)
    requires |img| > 0 ==> |colors| > 0
    ensures |out| == |img|
    ensures forall p :: 0 <= p < |img| ==> out[p] == Quantized(img[p], colors)
  {
    out := [];
    var i := 0;
    while i < |img|
      invariant 0 <= i <= |img|
      invariant |out| == i
      invariant forall p :: 0 <= p < i ==> out[p] == Quantized(img[p], colors)
    {
      var best := ClosestIndex(colors, DistTo(ToRgb(img[i])));
      NearestAt(colors, DistTo(ToRgb(img[i])), best);
      var c := colors[best];
      out := out + [Rgba(c.r, c.g, c.b, img[i].a)];
      i := i + 1;
    }
  }
}
