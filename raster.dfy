/** The loop skeletons the image stages share.

    Every stage of the pipeline walks an image row by row, top to bottom and
    left to right within a row, and either writes every pixel of a fresh
    buffer, or starts from a copy (or a zeroed buffer) and rewrites only the
    pixels off the first and last rows and columns.  The resamplers add two
    inner loops that accumulate over a rectangle of source pixels.  Each
    skeleton is a method over an array, specified by what ends up in it. */
module Raster {
  import opened Pixels

  /** Pixel `(x, y)`, or `Transparent` off the image.  Per-pixel rules are
      stated with this total accessor; each one only reads in bounds. */
  function Get(img: seq<Rgba>, w: nat, h: nat, x: int, y: int): (p: Rgba)
    ensures IsImage(img, w, h) && InBounds(w, h, x, y) ==> p == At(img, w, h, x, y)
  {
    if IsImage(img, w, h) && InBounds(w, h, x, y) then At(img, w, h, x, y) else Transparent
  }

  /** Cell `(x, y)` of any row-major buffer, or `d` off the buffer. */
  function Pick<T>(s: seq<T>, w: nat, h: nat, x: int, y: int, d: T): (v: T)
    ensures IsImage(s, w, h) && InBounds(w, h, x, y) ==> v == At(s, w, h, x, y)
  {
    if IsImage(s, w, h) && InBounds(w, h, x, y) then At(s, w, h, x, y) else d
  }

  /** A pass that rewrites each pixel on its own, in index order. */
  method MapPixels<T, U(0)>(s: seq<T>, f: T -> U) returns (out: seq<U>)
    ensures |out| == |s|
    ensures forall i :: 0 <= i < |s| ==> out[i] == f(s[i])
  {
    var a := new U[|s|];
    var i := 0;
    while i < a.Length
      invariant 0 <= i <= a.Length
      invariant forall j :: 0 <= j < i ==> a[j] == f(s[j])
    {
      a[i] := f(s[i]);
      i := i + 1;
    }
    out := a[..];
  }

  /** The image a colour pass produces: pixel `p` has the RGB `f` gives
      for pixel `p` of `img`, and the alpha of that pixel. */
  function Recoloured(img: seq<Rgba>, f: Rgb -> Rgb): (out: seq<Rgba>)
    ensures |out| == |img|
    ensures forall p :: 0 <= p < |img| ==> out[p].a == img[p].a
  {
    seq(|img|, p requires 0 <= p < |img| =>
      var c := f(Rgb(img[p].r, img[p].g, img[p].b)); Rgba(c.r, c.g, c.b, img[p].a))
  }

  /** A colour pass that copies alpha: each pixel's RGB goes through `f`
      (a colour-space round trip outside this model) and its alpha byte is
      kept. */
  method Recolour(img: seq<Rgba>, f: Rgb -> Rgb) returns (out: seq<Rgba>)
    ensures out == Recoloured(img, f)
    ensures |out| == |img|
    ensures forall p :: 0 <= p < |img| ==> out[p].a == img[p].a
    ensures forall p :: 0 <= p < |img| ==>
      Rgb(out[p].r, out[p].g, out[p].b) == f(Rgb(img[p].r, img[p].g, img[p].b))
  {
    out := MapPixels(img, (q: Rgba) => var c := f(Rgb(q.r, q.g, q.b)); Rgba(c.r, c.g, c.b, q.a));
  }

  /** Channel `c` of the image as a function of the coordinates. */
  function Sample(img: seq<Rgba>, w: nat, h: nat, c: nat): (int, int) -> int
    requires c < 4
  {
    (x: int, y: int) => Channel(Get(img, w, h, x, y), c) as int
  }

  /** A fresh array holding a copy of `s`, as a typed-array copy. */
  method ToArray<T>(s: seq<T>) returns (a: array<T>)
    ensures fresh(a) && a[..] == s
  {
    a := new T[|s|](i requires 0 <= i < |s| => s[i]);
  }

  /** The values `f(0), ..., f(n - 1)`: an output buffer written in scan
      order. */
  function Prefix<T>(f: nat -> T, n: nat): (s: seq<T>)
    ensures |s| == n && forall p :: 0 <= p < n ==> s[p] == f(p)
  {
    if n == 0 then [] else Prefix(f, n - 1) + [f(n - 1)]
  }

  /** The value for every pixel of a `w` by `h` image, in row-major order.
      The source's nested `y`/`x` loops are one loop over the pixel index
      here; pixel `i` is `(i % w, i / w)` and the visiting order is the same. */
  method Tabulate<T(0)>(w: nat, h: nat, f: (int, int) -> T) returns (out: seq<T>)
    ensures |out| == w * h
    ensures forall p :: 0 <= p < |out| ==> out[p] == f(p % w, p / w)
  {
    var a := new T[w * h];
    var i := 0;
    while i < a.Length
      invariant 0 <= i <= a.Length
      invariant forall p :: 0 <= p < i ==> a[p] == f(p % w, p / w)
    {
      a[i] := f(i % w, i / w);
      i := i + 1;
    }
    out := a[..];
  }

  /** Starting from `base`, the value `f(x, y)` is written at every pixel off
      the first and last rows and columns; the border keeps `base`.  The
      source's loops over `1 <= y < h - 1` and `1 <= x < w - 1` are one loop
      over the pixel index that skips the border; the pixels written and
      their order are the same. */
  method UpdateInterior<T>(base: seq<T>, w: nat, h: nat, f: (int, int) -> T) returns (out: seq<T>)
    requires IsImage(base, w, h)
    ensures |out| == |base|
    ensures forall p :: 0 <= p < |out| ==>
      out[p] == if Interior(w, h, p % w, p / w) then f(p % w, p / w) else base[p]
  {
    var a := ToArray(base);
    var i := 0;
    while i < a.Length
      invariant 0 <= i <= a.Length
      invariant forall p :: 0 <= p < a.Length ==>
        a[p] == if Interior(w, h, p % w, p / w) && p < i then f(p % w, p / w) else base[p]
    {
      var x, y := i % w, i / w;
      if 1 <= x < w - 1 && 1 <= y < h - 1 {
        a[i] := f(x, y);
      }
      i := i + 1;
    }
    out := a[..];
  }

  /** The second pass of the sharpen filters: every pixel on the first or
      last row or column of `stage` is replaced by `g(src[p])`. */
  method RewriteBorder<T>(stage: seq<T>, src: seq<T>, w: nat, h: nat, g: T -> T) returns (out: seq<T>)
    requires IsImage(stage, w, h) && |src| == |stage|
    ensures |out| == |stage|
    ensures forall p :: 0 <= p < |out| ==>
      out[p] == if Interior(w, h, p % w, p / w) then stage[p] else g(src[p])
  {
    var a := ToArray(stage);
    var i := 0;
    while i < a.Length
      invariant 0 <= i <= a.Length
      invariant forall p :: 0 <= p < a.Length ==>
        a[p] == if Interior(w, h, p % w, p / w) || p >= i then stage[p] else g(src[p])
    {
      IndexCoords(w, h, i);
      var x, y := i % w, i / w;
      if x == 0 || x == w - 1 || y == 0 || y == h - 1 {
        a[i] := g(src[i]);
      }
      i := i + 1;
    }
    out := a[..];
  }

  /** The map built by visiting the cells of `[x0, x1) x [y0, y1)` row by
      row and storing `sel(x, y)` under the key `(x, y)` whenever it is
      present, as the detectors fill their `"x,y"`-keyed objects. */
  method CollectCells<V>(x0: int, x1: int, y0: int, y1: int, sel: (int, int) -> Option<V>)
    returns (m: map<Cell, V>)
    ensures forall c :: c in m <==> x0 <= c.x < x1 && y0 <= c.y < y1 && sel(c.x, c.y).Some?
    ensures forall c :: c in m ==> m[c] == sel(c.x, c.y).value
  {
    m := map[];
    var y := y0;
    while y < y1
      invariant y0 <= y && (y <= y1 || y == y0)
      invariant forall c :: c in m <==> x0 <= c.x < x1 && y0 <= c.y < y && sel(c.x, c.y).Some?
      invariant forall c :: c in m ==> m[c] == sel(c.x, c.y).value
    {
      var x := x0;
      while x < x1
        invariant x0 <= x
        invariant forall c :: c in m <==>
          x0 <= c.x < x1 && (y0 <= c.y < y || (c.y == y && c.x < x)) && sel(c.x, c.y).Some?
        invariant forall c :: c in m ==> m[c] == sel(c.x, c.y).value
      {
        var v := sel(x, y);
        if v.Some? {
          m := m[Cell(x, y) := v.value];
        }
        x := x + 1;
      }
      y := y + 1;
    }
  }

  /** A zeroed buffer, as `new Uint8ClampedArray(n)` or `new Array(n).fill(0)`. */
  function Zeros<T>(n: nat, zero: T): (s: seq<T>)
    ensures |s| == n && forall i :: 0 <= i < n ==> s[i] == zero
  {
    seq(n, i => zero)
  }

  /** The number of cells among `ns` that satisfy `f`, as a counting loop
      over a neighbourhood computes it. */
  function CountWhere(ns: seq<Cell>, f: (int, int) -> bool): (n: nat)
    ensures n <= |ns|
  {
    if ns == [] then 0
    else (if f(ns[0].x, ns[0].y) then 1 else 0) + CountWhere(ns[1..], f)
  }

  lemma {:induction false} CountAppend(ns: seq<Cell>, ms: seq<Cell>, f: (int, int) -> bool)
    ensures CountWhere(ns + ms, f) == CountWhere(ns, f) + CountWhere(ms, f)
  {
    if ns == [] {
      assert ns + ms == ms;
    } else {
      assert (ns + ms)[1..] == ns[1..] + ms;
      CountAppend(ns[1..], ms, f);
    }
  }

  /** An in-bounds pixel whose brightness `(r + g + b) / 3` is below 100, as
      the highlight passes count them. */
  function Dark(img: seq<Rgba>, w: nat, h: nat): (int, int) -> bool
  {
    (x: int, y: int) => InBounds(w, h, x, y) && Intensity(Get(img, w, h, x, y)) < 300
  }

  /** Counting the 3x3 block is counting the eight surrounding cells plus the
      centre. */
  lemma CountWindow(x: int, y: int, f: (int, int) -> bool)
    ensures CountWhere(Window3(x, y), f) == CountWhere(Ring3(x, y), f) + (if f(x, y) then 1 else 0)
  {
    var rs := Ring3(x, y);
    assert CountWhere([Cell(x, y)], f) == if f(x, y) then 1 else 0;
    CountAppend(rs[..4] + [Cell(x, y)], rs[4..], f);
    CountAppend(rs[..4], [Cell(x, y)], f);
    CountAppend(rs[..4], rs[4..], f);
    assert rs[..4] + rs[4..] == rs;
    assert [Cell(x, y)][1..] == [];
  }

  // ------------------------------------------------------------ resampling

  /** The source rectangle `[x0, x1) x [y0, y1)` one target pixel averages. */
  datatype Rect = Rect(x0: int, x1: int, y0: int, y1: int)

  /** Cells `(x0, y) .. (x1 - 1, y)`, left to right. */
  function RowCells(y: int, x0: int, x1: int): (cs: seq<Cell>)
    decreases x1 - x0
    ensures |cs| == if x1 <= x0 then 0 else x1 - x0
    ensures forall i :: 0 <= i < |cs| ==> cs[i] == Cell(x0 + i, y)
  {
    if x1 <= x0 then [] else RowCells(y, x0, x1 - 1) + [Cell(x1 - 1, y)]
  }

  /** The cells of a rectangle in the order the nested loops visit them. */
  function RectCells(r: Rect): (cs: seq<Cell>)
    decreases r.y1 - r.y0
    ensures forall i :: 0 <= i < |cs| ==>
      r.x0 <= cs[i].x < r.x1 && r.y0 <= cs[i].y < r.y1
  {
    if r.y1 <= r.y0 then []
    else RectCells(r.(y1 := r.y1 - 1)) + RowCells(r.y1 - 1, r.x0, r.x1)
  }

  /** An accumulator threaded through a sequence of cells. */
  function Fold<A>(cs: seq<Cell>, init: A, step: (A, int, int) -> A): A
  {
    if cs == [] then init
    else step(Fold(cs[..|cs| - 1], init, step), cs[|cs| - 1].x, cs[|cs| - 1].y)
  }

  lemma FoldSnoc<A>(cs: seq<Cell>, c: Cell, init: A, step: (A, int, int) -> A)
    ensures Fold(cs + [c], init, step) == step(Fold(cs, init, step), c.x, c.y)
  {
    assert (cs + [c])[..|cs|] == cs;
  }

  lemma {:induction false} FoldAppend<A>(cs: seq<Cell>, ds: seq<Cell>, init: A, step: (A, int, int) -> A)
    ensures Fold(cs + ds, init, step) == Fold(ds, Fold(cs, init, step), step)
    decreases |ds|
  {
    if ds == [] {
      assert cs + ds == cs;
    } else {
      var n := |ds| - 1;
      assert cs + ds == (cs + ds[..n]) + [ds[n]];
      assert ds == ds[..n] + [ds[n]];
      FoldSnoc(cs + ds[..n], ds[n], init, step);
      FoldSnoc(ds[..n], ds[n], Fold(cs, init, step), step);
      FoldAppend(cs, ds[..n], init, step);
    }
  }

  /** The innermost loop of a resampler: one source row of the rectangle. */
  method FoldRow<A>(y: int, x0: int, x1: int, acc0: A, step: (A, int, int) -> A) returns (acc: A)
    ensures acc == Fold(RowCells(y, x0, x1), acc0, step)
  {
    acc := acc0;
    var sx := x0;
    while sx < x1
      invariant x0 <= sx && (sx <= x1 || sx == x0)
      invariant acc == Fold(RowCells(y, x0, sx), acc0, step)
    {
      FoldSnoc(RowCells(y, x0, sx), Cell(sx, y), acc0, step);
      acc := step(acc, sx, y);
      sx := sx + 1;
    }
  }

  /** The two inner loops of a resampler: visit the rectangle row by row. */
  method FoldRect<A>(r: Rect, init: A, step: (A, int, int) -> A) returns (acc: A)
    ensures acc == Fold(RectCells(r), init, step)
  {
    acc := init;
    if r.y1 <= r.y0 {
      return;
    }
    var sy := r.y0;
    while sy < r.y1
      invariant r.y0 <= sy <= r.y1
      invariant acc == Fold(RectCells(r.(y1 := sy)), init, step)
    {
      FoldAppend(RectCells(r.(y1 := sy)), RowCells(sy, r.x0, r.x1), init, step);
      acc := FoldRow(sy, r.x0, r.x1, acc, step);
      sy := sy + 1;
    }
    assert r.(y1 := sy) == r;
  }

  /** A `tw` by `th` image whose pixel `(x, y)` is `finish` of the
      accumulation over the source rectangle `rect(x, y)`. */
  method Resample<A, T(0)>(tw: nat, th: nat, rect: (int, int) -> Rect, init: A,
                           step: (A, int, int) -> A, finish: A -> T) returns (out: seq<T>)
    ensures |out| == tw * th
    ensures forall p :: 0 <= p < |out| ==>
      out[p] == finish(Fold(RectCells(rect(p % tw, p / tw)), init, step))
  {
    var a := new T[tw * th];
    var i := 0;
    while i < a.Length
      invariant 0 <= i <= a.Length
      invariant forall p :: 0 <= p < i ==>
        a[p] == finish(Fold(RectCells(rect(p % tw, p / tw)), init, step))
    {
      var acc := FoldRect(rect(i % tw, i / tw), init, step);
      a[i] := finish(acc);
      i := i + 1;
    }
    out := a[..];
  }
}
