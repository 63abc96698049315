/** The "first minimum wins" search every palette lookup of the system
    performs: a running best that is replaced only on a strictly smaller
    distance, so among equal distances the earliest entry is kept. */
module Select {

  /** `i` is the earliest index holding the minimum of `ds`. */
  predicate IsFirstMin(ds: seq<real>, i: int)
  {
    0 <= i < |ds|
    && (forall j :: 0 <= j < |ds| ==> ds[i] <= ds[j])
    && (forall j :: 0 <= j < i ==> ds[i] < ds[j])
  }

  /** The index a left-to-right scan with a strict `<` ends on. */
  function FirstMin(ds: seq<real>): (i: nat)
    requires |ds| > 0
    ensures IsFirstMin(ds, i)
  {
    if |ds| == 1 then 0
    else
      var k := FirstMin(ds[..|ds| - 1]);
      if ds[|ds| - 1] < ds[k] then |ds| - 1 else k
  }

  /** There is only one earliest minimum. */
  lemma FirstMinUnique(ds: seq<real>, i: int)
    requires IsFirstMin(ds, i)
    ensures i == FirstMin(ds)
  {
    var k := FirstMin(ds);
    assert IsFirstMin(ds, k);
  }

  /** One step of the scan: extending the prefix by one entry. */
  lemma FirstMinStep(ds: seq<real>, n: nat, best: nat)
    requires 0 < n < |ds| && IsFirstMin(ds[..n], best)
    ensures IsFirstMin(ds[..n + 1], if ds[n] < ds[best] then n else best)
  {
    assert ds[..n + 1][..n] == ds[..n];
  }

  /** The distance of every candidate, in candidate order. */
  function Distances<T>(xs: seq<T>, dist: T -> real): (ds: seq<real>)
    ensures |ds| == |xs| && forall i :: 0 <= i < |xs| ==> ds[i] == dist(xs[i])
  {
    seq(|xs|, i requires 0 <= i < |xs| => dist(xs[i]))
  }

  /** The palette scan: `closest` starts at the first candidate (whose
      distance always beats the initial `Infinity`) and is replaced whenever
      a later candidate is strictly nearer. */
  method ClosestIndex<T>(xs: seq<T>, dist: T -> real) returns (best: nat)
    requires |xs| > 0
    ensures best == FirstMin(Distances(xs, dist))
    ensures IsFirstMin(Distances(xs, dist), best)
  {
    ghost var ds := Distances(xs, dist);
    best := 0;
    var minDist := dist(xs[0]);
    var k := 1;
    while k < |xs|
      invariant 1 <= k <= |xs|
      invariant best < k && minDist == ds[best]
      invariant IsFirstMin(ds[..k], best)
    {
      FirstMinStep(ds, k, best);
      var d := dist(xs[k]);
      if d < minDist {
        best, minDist := k, d;
      }
      k := k + 1;
    }
    assert ds[..k] == ds;
    FirstMinUnique(ds, best);
  }

  /** The candidate the scan returns: none is nearer, and every earlier one
      is strictly farther. */
  function Nearest<T>(xs: seq<T>, dist: T -> real): (x: T)
    requires |xs| > 0
    ensures x in xs
    ensures forall y :: y in xs ==> dist(x) <= dist(y)
    ensures exists i :: IsFirstMin(Distances(xs, dist), i) && x == xs[i]
  {
    var ds := Distances(xs, dist);
    var i := FirstMin(ds);
    assert forall y :: y in xs ==> exists j :: 0 <= j < |xs| && xs[j] == y;
    xs[i]
  }

  /** The index the scan ends on names the nearest candidate. */
  lemma NearestAt<T>(xs: seq<T>, dist: T -> real, i: int)
    requires IsFirstMin(Distances(xs, dist), i)
    ensures Nearest(xs, dist) == xs[i]
  {
    FirstMinUnique(Distances(xs, dist), i);
  }

  /** Two distance functions that agree on every candidate pick the same
      candidate. */
  lemma NearestSameDistances<T>(xs: seq<T>, d1: T -> real, d2: T -> real)
    requires |xs| > 0 && forall i :: 0 <= i < |xs| ==> d1(xs[i]) == d2(xs[i])
    ensures Nearest(xs, d1) == Nearest(xs, d2)
  {
    assert Distances(xs, d1) == Distances(xs, d2);
    var i := FirstMin(Distances(xs, d1));
    NearestAt(xs, d1, i);
    NearestAt(xs, d2, i);
  }
}
