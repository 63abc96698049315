/** The professional contour: a silhouette pass and an internal-feature
    pass over an RGBA image, merged with the silhouette taking priority and
    pruned of isolated internal cells; and the aggressive sharpen filter
    that goes with it. */
module ProfessionalContour {
  import opened Pixels
  import opened Raster
  import opened Kernels

  /** The two tags a contour cell carries. */
  datatype EdgeKind = External | Internal

  type EdgeMap = map<Cell, EdgeKind>

  // ------------------------------------------------------------ silhouette

  /** A visible pixel (alpha above 50) with a side neighbour that is off the
      image or not visible. */
  predicate IsExternal(img: seq<Rgba>, w: nat, h: nat, x: int, y: int)
  {
    Get(img, w, h, x, y).a > 50
    && exists n :: n in Neighbours4(x, y) &&
         (!InBounds(w, h, n.x, n.y) || Get(img, w, h, n.x, n.y).a <= 50)
  }

  /** detectExternalEdges: every pixel is visited; the silhouette cells are
      exactly the keys, each tagged external. */
  method DetectExternalEdges(img: seq<Rgba>, w: nat, h: nat) returns (edges: EdgeMap)
    requires IsImage(img, w, h)
    ensures forall c :: c in edges <==> InBounds(w, h, c.x, c.y) && IsExternal(img, w, h, c.x, c.y)
    ensures forall c :: c in edges ==> edges[c] == External
  {
    edges := CollectCells(0, w, 0, h,
      (x, y) => if IsExternal(img, w, h, x, y) then Some(External) else None);
  }

  /** A visible pixel on the first or last row or column is always on the
      silhouette, since one of its side neighbours is off the image. */
  lemma VisibleBorderIsExternal(img: seq<Rgba>, w: nat, h: nat, x: int, y: int)
    requires IsImage(img, w, h) && InBounds(w, h, x, y) && !Interior(w, h, x, y)
    requires Get(img, w, h, x, y).a > 50
    ensures IsExternal(img, w, h, x, y)
  {
    var ns := Neighbours4(x, y);
    if x == 0 { assert !InBounds(w, h, ns[0].x, ns[0].y); }
    else if x == w - 1 { assert !InBounds(w, h, ns[1].x, ns[1].y); }
    else if y == 0 { assert !InBounds(w, h, ns[2].x, ns[2].y); }
    else { assert !InBounds(w, h, ns[3].x, ns[3].y); }
  }

  // ------------------------------------------------------ internal features

  /** `Math.max(...xs)`: minus infinity for an empty list. */
  datatype Extended = NegInfinity | Finite(v: int)

  function MaxOf(xs: seq<int>): Extended
  {
    if xs == [] then NegInfinity
    else
      var m := MaxOf(xs[..|xs| - 1]);
      if m.Finite? && m.v >= xs[|xs| - 1] then m else Finite(xs[|xs| - 1])
  }

  predicate Exceeds(e: Extended, t: int)
  {
    e.Finite? && e.v > t
  }

  lemma {:induction false} MaxOfExceeds(xs: seq<int>, t: int)
    ensures Exceeds(MaxOf(xs), t) <==> exists i :: 0 <= i < |xs| && xs[i] > t
  {
    if xs != [] {
      var n := |xs| - 1;
      MaxOfExceeds(xs[..n], t);
      if exists i :: 0 <= i < n && xs[..n][i] > t {
        var i :| 0 <= i < n && xs[..n][i] > t;
        assert xs[i] > t;
      }
      if exists i :: 0 <= i < |xs| && xs[i] > t {
        var i :| 0 <= i < |xs| && xs[i] > t;
        if i < n { assert xs[..n][i] > t; }
      }
    }
  }

  /** The gradient list of the pixel `centre`: the channel-difference sum to
      each visible neighbour among `ns`, in order. */
  function Gradients(img: seq<Rgba>, w: nat, h: nat, centre: Rgba, ns: seq<Cell>): seq<int>
  {
    if ns == [] then []
    else
      var rest := Gradients(img, w, h, centre, ns[1..]);
      var q := Get(img, w, h, ns[0].x, ns[0].y);
      if q.a > 50 then [ColorDiff(centre, q)] + rest else rest
  }

  /** Every gradient comes from a visible neighbour. */
  lemma {:induction false} GradientsSound(img: seq<Rgba>, w: nat, h: nat, centre: Rgba, ns: seq<Cell>, i: nat)
    requires i < |Gradients(img, w, h, centre, ns)|
    ensures exists n :: n in ns && Get(img, w, h, n.x, n.y).a > 50
                 && Gradients(img, w, h, centre, ns)[i] == ColorDiff(centre, Get(img, w, h, n.x, n.y))
  {
    var q := Get(img, w, h, ns[0].x, ns[0].y);
    if q.a > 50 && i == 0 {
      assert ns[0] in ns;
    } else {
      var j := if q.a > 50 then i - 1 else i;
      GradientsSound(img, w, h, centre, ns[1..], j);
      var n :| n in ns[1..] && Get(img, w, h, n.x, n.y).a > 50
               && Gradients(img, w, h, centre, ns[1..])[j] == ColorDiff(centre, Get(img, w, h, n.x, n.y));
      assert n in ns;
    }
  }

  /** Every visible neighbour contributes its gradient. */
  lemma {:induction false} GradientsCover(img: seq<Rgba>, w: nat, h: nat, centre: Rgba, ns: seq<Cell>, n: Cell)
    requires n in ns && Get(img, w, h, n.x, n.y).a > 50
    ensures ColorDiff(centre, Get(img, w, h, n.x, n.y)) in Gradients(img, w, h, centre, ns)
  {
    if ns[0] != n {
      GradientsCover(img, w, h, centre, ns[1..], n);
    }
  }

  /** The rule for an interior pixel: visible, and the largest gradient to a
      visible neighbour among the eight is above 120. */
  predicate IsInternal(img: seq<Rgba>, w: nat, h: nat, x: int, y: int)
  {
    var p := Get(img, w, h, x, y);
    p.a > 50 && Exceeds(MaxOf(Gradients(img, w, h, p, Neighbours8(x, y))), 120)
  }

  /** The internal rule as a plain statement about the neighbours: some
      visible neighbour differs by a channel sum above 120.  In particular a
      pixel with no visible neighbour is never internal. */
  lemma InternalIff(img: seq<Rgba>, w: nat, h: nat, x: int, y: int)
    ensures IsInternal(img, w, h, x, y) <==>
      Get(img, w, h, x, y).a > 50 &&
      exists n :: n in Neighbours8(x, y) && Get(img, w, h, n.x, n.y).a > 50
                  && ColorDiff(Get(img, w, h, x, y), Get(img, w, h, n.x, n.y)) > 120
  {
    var p := Get(img, w, h, x, y);
    var gs := Gradients(img, w, h, p, Neighbours8(x, y));
    MaxOfExceeds(gs, 120);
    if Exceeds(MaxOf(gs), 120) {
      var i :| 0 <= i < |gs| && gs[i] > 120;
      GradientsSound(img, w, h, p, Neighbours8(x, y), i);
    }
    if exists n :: n in Neighbours8(x, y) && Get(img, w, h, n.x, n.y).a > 50
                   && ColorDiff(p, Get(img, w, h, n.x, n.y)) > 120 {
      var n :| n in Neighbours8(x, y) && Get(img, w, h, n.x, n.y).a > 50
               && ColorDiff(p, Get(img, w, h, n.x, n.y)) > 120;
      GradientsCover(img, w, h, p, Neighbours8(x, y), n);
    }
  }

  /** detectInternalFeatures: only interior cells are visited. */
  method DetectInternalFeatures(img: seq<Rgba>, w: nat, h: nat) returns (edges: EdgeMap)
    requires IsImage(img, w, h)
    ensures forall c :: c in edges <==> Interior(w, h, c.x, c.y) && IsInternal(img, w, h, c.x, c.y)
    ensures forall c :: c in edges ==> edges[c] == Internal
  {
    edges := CollectCells(1, w - 1, 1, h - 1,
      (x, y) => if IsInternal(img, w, h, x, y) then Some(Internal) else None);
  }

  // ------------------------------------------------------------- combining

  /** combineEdges: the union of the two key sets, the silhouette tag
      winning where both have a key. */
  method CombineEdges(external: EdgeMap, internal: EdgeMap) returns (combined: EdgeMap)
    ensures combined.Keys == external.Keys + internal.Keys
    ensures forall c :: c in external ==> combined[c] == external[c]
    ensures forall c :: c in internal && c !in external ==> combined[c] == internal[c]
  {
    combined := external;
    var todo := internal.Keys;
    while todo != {}
      invariant todo <= internal.Keys
      invariant combined.Keys == external.Keys + (internal.Keys - todo)
      invariant forall c :: c in external ==> combined[c] == external[c]
      invariant forall c :: c in internal && c !in external && c !in todo ==> combined[c] == internal[c]
      decreases todo
    {
      var key :| key in todo;
      if key !in combined {
        combined := combined[key := internal[key]];
      }
      todo := todo - {key};
    }
  }

  // -------------------------------------------------------------- pruning

  /** Some side neighbour of `c` has a key in `edges`. */
  predicate HasNeighbour(edges: EdgeMap, c: Cell)
  {
    exists n :: n in Neighbours4(c.x, c.y) && n in edges
  }

  /** What one pruning pass keeps: cells with a neighbour in the input, and
      silhouette cells. */
  function Refined(edges: EdgeMap): (r: EdgeMap)
    ensures r.Keys <= edges.Keys
    ensures forall c :: c in r ==> r[c] == edges[c]
  {
    map c | c in edges && (HasNeighbour(edges, c) || edges[c] == External) :: edges[c]
  }

  /** refineContour: each key is judged against the input map, never against
      the partly pruned copy. */
  method RefineContour(edges: EdgeMap) returns (refined: EdgeMap)
    ensures refined == Refined(edges)
  {
    refined := edges;
    var todo := edges.Keys;
    while todo != {}
      invariant todo <= edges.Keys
      invariant refined.Keys <= edges.Keys
      invariant forall c :: c in refined ==> refined[c] == edges[c]
      invariant forall c :: c in edges && c !in todo ==>
        (c in refined <==> HasNeighbour(edges, c) || edges[c] == External)
      invariant forall c :: c in todo ==> c in refined
      decreases todo
    {
      var key :| key in todo;
      var hasNeighbour := exists n :: n in Neighbours4(key.x, key.y) && n in edges;
      if !hasNeighbour && edges[key] != External {
        refined := map c | c in refined && c != key :: refined[c];
      }
      todo := todo - {key};
    }
  }

  /** Side neighbourhood is symmetric. */
  lemma NeighbourSymmetric(c: Cell, n: Cell)
    requires n in Neighbours4(c.x, c.y)
    ensures c in Neighbours4(n.x, n.y)
  {
  }

  /** Pruning never drops a silhouette cell, never adds a key, and a second
      pass changes nothing: a pruned cell had no neighbour, so it was nobody's
      neighbour either. */
  lemma {:induction false} RefinedIdempotent(edges: EdgeMap)
    ensures forall c :: c in edges && edges[c] == External ==> c in Refined(edges)
    ensures Refined(Refined(edges)) == Refined(edges)
  {
    var r := Refined(edges);
    forall c | c in r
      ensures HasNeighbour(r, c) || r[c] == External
    {
      if r[c] != External {
        var n :| n in Neighbours4(c.x, c.y) && n in edges;
        NeighbourSymmetric(c, n);
        assert HasNeighbour(edges, n);
        assert n in r;
      }
    }
  }

  // ------------------------------------------------------------ the whole

  /** createProfessionalContour: the silhouette cells are all present and
      tagged external; a cell is tagged internal exactly when it is an
      interior, non-silhouette internal feature with a side neighbour that
      is itself a silhouette or internal cell. */
  method CreateProfessionalContour(img: seq<Rgba>, w: nat, h: nat) returns (contour: EdgeMap)
    requires IsImage(img, w, h)
    ensures forall c: Cell :: InBounds(w, h, c.x, c.y) && IsExternal(img, w, h, c.x, c.y) ==>
      c in contour && contour[c] == External
    ensures forall c :: c in contour ==>
      (contour[c] == External <==> InBounds(w, h, c.x, c.y) && IsExternal(img, w, h, c.x, c.y))
    ensures forall c :: c in contour && contour[c] == Internal ==>
      Interior(w, h, c.x, c.y) && IsInternal(img, w, h, c.x, c.y) &&
      exists n: Cell :: n in Neighbours4(c.x, c.y) &&
        ((InBounds(w, h, n.x, n.y) && IsExternal(img, w, h, n.x, n.y)) ||
         (Interior(w, h, n.x, n.y) && IsInternal(img, w, h, n.x, n.y)))
    ensures forall c: Cell ::
      (Interior(w, h, c.x, c.y) && IsInternal(img, w, h, c.x, c.y) &&
       !IsExternal(img, w, h, c.x, c.y) &&
       exists n: Cell :: n in Neighbours4(c.x, c.y) &&
         ((InBounds(w, h, n.x, n.y) && IsExternal(img, w, h, n.x, n.y)) ||
          (Interior(w, h, n.x, n.y) && IsInternal(img, w, h, n.x, n.y))))
      ==> c in contour && contour[c] == Internal
  {
    var external := DetectExternalEdges(img, w, h);
    var internal := DetectInternalFeatures(img, w, h);
    var combined := CombineEdges(external, internal);
    contour := RefineContour(combined);
    RefinedIdempotent(combined);
  }

  // ------------------------------------------------------------ sharpening

  /** One interior pixel of the sharpen pass: each colour channel is the
      kernel sum cut to 0..255, alpha is kept. */
  function SharpenAt(img: seq<Rgba>, w: nat, h: nat, x: int, y: int): Rgba
  {
    Rgba(ClampInt(ConvInt(Sample(img, w, h, 0), x, y, Sharpen, 9)),
         ClampInt(ConvInt(Sample(img, w, h, 1), x, y, Sharpen, 9)),
         ClampInt(ConvInt(Sample(img, w, h, 2), x, y, Sharpen, 9)),
         Get(img, w, h, x, y).a)
  }

  /** Nine times the channel less the eight neighbours' channel. */
  function Boosted(img: seq<Rgba>, w: nat, h: nat, x: int, y: int, c: nat): int
    requires c < 3
  {
    9 * Channel(Get(img, w, h, x, y), c) - Ring8(Sample(img, w, h, c), x, y)
  }

  /** applyProfessionalSharpening: a zeroed output gets the sharpened
      interior, then a second pass copies every border pixel verbatim. */
  method ApplyProfessionalSharpening(img: seq<Rgba>, w: nat, h: nat) returns (out: seq<Rgba>)
    requires IsImage(img, w, h)
    ensures |out| == |img|
    ensures forall p :: 0 <= p < |img| && !Interior(w, h, p % w, p / w) ==> out[p] == img[p]
    ensures forall p :: 0 <= p < |img| && Interior(w, h, p % w, p / w) ==>
      out[p] == Rgba(ClampInt(Boosted(img, w, h, p % w, p / w, 0)),
                     ClampInt(Boosted(img, w, h, p % w, p / w, 1)),
                     ClampInt(Boosted(img, w, h, p % w, p / w, 2)),
                     img[p].a)
  {
    var stage := UpdateInterior(Zeros(|img|, Transparent), w, h, (x, y) => SharpenAt(img, w, h, x, y));
    out := RewriteBorder(stage, img, w, h, (q: Rgba) => q);
    forall p | 0 <= p < |img| && Interior(w, h, p % w, p / w)
      ensures out[p] == Rgba(ClampInt(Boosted(img, w, h, p % w, p / w, 0)),
                             ClampInt(Boosted(img, w, h, p % w, p / w, 1)),
                             ClampInt(Boosted(img, w, h, p % w, p / w, 2)),
                             img[p].a)
    {
      var x, y := p % w, p / w;
      AtIndex(img, w, h, p);
      SharpenSum(Sample(img, w, h, 0), x, y);
      SharpenSum(Sample(img, w, h, 1), x, y);
      SharpenSum(Sample(img, w, h, 2), x, y);
    }
  }
}
