/** The pattern editor's state: the sparse grid of painted cells, the
    bounded undo history, and the whole-grid edits (the graded shadow
    border and the two black contours). */
module AppEditor {
  import opened Pixels
  import opened Hex

  /** The sparse grid: cell to colour string.  Absent cells are empty. */
  type Grid = map<Cell, string>

  /** `!grid[key]` is false: the key is present with a non-empty string. */
  predicate Painted(g: Grid, c: Cell)
  {
    c in g && g[c] != ""
  }

  predicate StoredColors(g: Grid)
  {
    forall c :: c in g ==> IsStoredColor(g[c])
  }

  /** `Object.keys(g)`: the keys in iteration order.  The edits below
      depend on that order only through the sequence itself, so it is left
      free (a key listed twice changes none of their results). */
  ghost predicate IsKeyOrder(ks: seq<Cell>, g: Grid)
  {
    forall c :: c in g <==> c in ks
  }

  const Black: string := "#000000"

  const HistoryLimit: nat := 20

  // --------------------------------------------------------------- history

  /** The history after saving `g`: the entries up to the current one, then
      `g`, with the oldest dropped past the limit. */
  function Saved(history: seq<Grid>, index: nat, g: Grid): seq<Grid>
  {
    var kept := history[..Min(index + 1, |history|)] + [g];
    if |kept| > HistoryLimit then kept[1..] else kept
  }

  /** A history of at most 20 entries and an index into it keep those
      bounds after a save, the index names the saved grid, and the entry
      before it is the one that was current. */
  lemma SavedFacts(history: seq<Grid>, index: nat, g: Grid)
    requires 1 <= |history| <= HistoryLimit && index < |history|
    ensures var h := Saved(history, index, g);
      1 <= |h| <= HistoryLimit && h[|h| - 1] == g
      && h[|h| - 2] == history[index]
  {
  }

  /** The entries that survive a save keep their order: the new history is
      a window of the old entries up to the current one, then the grid. */
  lemma SavedKeepsOrder(history: seq<Grid>, index: nat, g: Grid)
    requires 1 <= |history| <= HistoryLimit && index < |history|
    ensures var h := Saved(history, index, g);
      var drop := if index + 2 > HistoryLimit then 1 else 0;
      h == history[drop..index + 1] + [g]
  {
  }

  class Editor {
    var grid: Grid
    var history: seq<Grid>
    var historyIndex: nat

    predicate Valid()
      reads this
    {
      1 <= |history| <= HistoryLimit && historyIndex < |history|
      && StoredColors(grid) && forall i :: 0 <= i < |history| ==> StoredColors(history[i])
    }

    /** An empty grid and a history holding one empty grid. */
    constructor ()
      ensures Valid() && grid == map[] && history == [map[]] && historyIndex == 0
    {
      grid := map[];
      history := [map[]];
      historyIndex := 0;
    }

    /** saveToHistory: the current grid is left to the caller. */
    method SaveToHistory(g: Grid)
      requires Valid() && StoredColors(g)
      modifies this
      ensures Valid() && grid == old(grid)
      ensures history == Saved(old(history), old(historyIndex), g)
      ensures historyIndex == |history| - 1 && history[historyIndex] == g
    {
      var newHistory := history[..historyIndex + 1];
      newHistory := newHistory + [g];
      if |newHistory| > HistoryLimit {
        newHistory := newHistory[1..];
      }
      history := newHistory;
      historyIndex := |newHistory| - 1;
    }

    /** handleUndo: nothing at the first entry; otherwise one entry back,
        restoring its grid. */
    method HandleUndo()
      requires Valid()
      modifies this
      ensures Valid() && history == old(history)
      ensures old(historyIndex) == 0 ==> historyIndex == 0 && grid == old(grid)
      ensures old(historyIndex) > 0 ==>
        historyIndex == old(historyIndex) - 1 && grid == history[historyIndex]
    {
      if historyIndex > 0 {
        historyIndex := historyIndex - 1;
        grid := history[historyIndex];
      }
    }

    /** addBorder: nothing for an empty grid; otherwise the three shadow
        layers are written around every painted cell, into empty positions
        only, and the result is saved and shown. */
    method AddBorder(ks: seq<Cell>)
      requires Valid() && IsKeyOrder(ks, grid)
      modifies this
      ensures Valid()
      ensures |old(grid)| == 0 ==> grid == old(grid) && history == old(history) && historyIndex == old(historyIndex)
      ensures |old(grid)| > 0 ==>
        grid == FillEmpty(old(grid), BorderWrites(old(grid), ks))
        && history == Saved(old(history), old(historyIndex), grid)
        && historyIndex == |history| - 1
    {
      if |grid| == 0 {
        return;
      }
      var finalGrid := BorderGrid(grid, ks);
      SaveToHistory(finalGrid);
      grid := finalGrid;
    }

    /** toggleContour: nothing for an empty grid; otherwise every empty side
        neighbour of a cell becomes black, and the result is saved and
        shown. */
    method ToggleContour(ks: seq<Cell>)
      requires Valid() && IsKeyOrder(ks, grid)
      modifies this
      ensures Valid()
      ensures |old(grid)| == 0 ==> grid == old(grid) && history == old(history) && historyIndex == old(historyIndex)
      ensures |old(grid)| > 0 ==>
        IsToggled(old(grid), grid) && history == Saved(old(history), old(historyIndex), grid)
        && historyIndex == |history| - 1
    {
      if |grid| == 0 {
        return;
      }
      var finalGrid := ToggledGrid(grid, ks);
      ToggledColors(grid, finalGrid);
      SaveToHistory(finalGrid);
      grid := finalGrid;
    }
  }

  /** Undoing right after a save brings back the grid that was current
      before it, whether or not the save dropped the oldest entry. */
  lemma UndoAfterSave(history: seq<Grid>, index: nat, g: Grid)
    requires 1 <= |history| <= HistoryLimit && index < |history|
    ensures var h := Saved(history, index, g);
      |h| - 1 > 0 && h[|h| - 2] == history[index]
  {
    SavedFacts(history, index, g);
  }

  // ---------------------------------------------------------------- border

  /** `Math.floor(c * (1 - opacity))` for the opacities 0.6, 0.4 and 0.2,
      with `keep` the tenths left (4, 6, 8).  For a byte the double product
      lies within rounding distance of the exact one, so the floor is the
      exact quotient. */
  function ShadowChannel(c: byte, keep: nat): (s: byte)
    requires keep <= 10
    ensures s <= c
  {
    TenthsBound(c, keep);
    c * keep / 10
  }

  lemma TenthsBound(c: nat, keep: nat)
    requires keep <= 10
    ensures 0 <= c * keep / 10 <= c
  {
    var p := c * keep;
    assert 0 <= p <= c * 10 by {
      assert c * keep <= c * 10;
    }
    assert (c * 10) / 10 == c;
  }

  /** A lighter layer keeps more of each channel. */
  lemma ShadowOrder(c: byte, k1: nat, k2: nat)
    requires k1 <= k2 <= 10
    ensures ShadowChannel(c, k1) <= ShadowChannel(c, k2)
  {
    assert c * k1 <= c * k2;
  }

  /** The tenths of colour layer `d` keeps: 0.4, 0.6 and 0.8. */
  function Keep(d: nat): nat
  {
    2 + 2 * d
  }

  /** The shadow colour of a stored colour, two lower-case digits per
      channel. */
  function Shadow(color: string, keep: nat): (s: string)
    requires IsStoredColor(color) && keep <= 10
    ensures IsStoredColor(s)
  {
    var s := ColorHex(ShadowChannel(PairValue(color, 1), keep),
                      ShadowChannel(PairValue(color, 3), keep),
                      ShadowChannel(PairValue(color, 5), keep));
    assert s == "#" + ByteHex(ShadowChannel(PairValue(color, 1), keep))
      + ByteHex(ShadowChannel(PairValue(color, 3), keep)) + ByteHex(ShadowChannel(PairValue(color, 5), keep));
    s
  }

  /** The eight positions at distance `d`, in the order of `directions`. */
  function Ring(k: Cell, d: int): (r: seq<Cell>)
    ensures |r| == 8
  {
    [Cell(k.x - d, k.y - d), Cell(k.x - d, k.y), Cell(k.x - d, k.y + d),
     Cell(k.x, k.y - d), Cell(k.x, k.y + d),
     Cell(k.x + d, k.y - d), Cell(k.x + d, k.y), Cell(k.x + d, k.y + d)]
  }

  /** One intended store: position and colour. */
  datatype Write = Write(at: Cell, color: string)

  function RingWrites(k: Cell, d: int, color: string): (ws: seq<Write>)
    ensures |ws| == 8
  {
    var r := Ring(k, d);
    seq(8, i requires 0 <= i < 8 => Write(r[i], color))
  }

  predicate KeysOf(g: Grid, ks: seq<Cell>)
  {
    forall i :: 0 <= i < |ks| ==> ks[i] in g && IsStoredColor(g[ks[i]])
  }

  /** The stores of layer `d`, cell by cell in key order. */
  function LayerWrites(g: Grid, ks: seq<Cell>, d: nat): seq<Write>
    requires KeysOf(g, ks) && d <= 4
  {
    if |ks| == 0 then []
    else
      var k := ks[|ks| - 1];
      LayerWrites(g, ks[..|ks| - 1], d) + RingWrites(k, d, Shadow(g[k], Keep(d)))
  }

  /** The stores of layers 1 to `n`, nearest first. */
  function Layers(g: Grid, ks: seq<Cell>, n: nat): seq<Write>
    requires KeysOf(g, ks) && n <= 3
  {
    if n == 0 then [] else Layers(g, ks, n - 1) + LayerWrites(g, ks, n)
  }

  function BorderWrites(g: Grid, ks: seq<Cell>): seq<Write>
    requires KeysOf(g, ks)
  {
    Layers(g, ks, 3)
  }

  /** The stores in order, each one made only where the original grid and
      the grid built so far are both empty. */
  function FillEmpty(g0: Grid, ws: seq<Write>): Grid
  {
    if |ws| == 0 then g0
    else
      var acc := FillEmpty(g0, ws[..|ws| - 1]);
      var w := ws[|ws| - 1];
      if !Painted(g0, w.at) && !Painted(acc, w.at) then acc[w.at := w.color] else acc
  }

  /** A painted cell is never changed, and no key appears that no store
      names. */
  lemma {:induction false} FillEmptyKeeps(g0: Grid, ws: seq<Write>)
    ensures var g := FillEmpty(g0, ws);
      (forall c :: Painted(g0, c) ==> c in g && g[c] == g0[c])
      && (forall c :: c in g ==> c in g0 || exists i :: 0 <= i < |ws| && ws[i].at == c)
  {
    if |ws| > 0 {
      var init := ws[..|ws| - 1];
      FillEmptyKeeps(g0, init);
      forall c | c in FillEmpty(g0, ws) && c !in g0
        ensures exists i :: 0 <= i < |ws| && ws[i].at == c
      {
        if c in FillEmpty(g0, init) {
          var i :| 0 <= i < |init| && init[i].at == c;
          assert ws[i].at == c;
        } else {
          assert ws[|ws| - 1].at == c;
        }
      }
    }
  }

  /** A cell no store names is as it was. */
  lemma {:induction false} FillEmptyUntouched(g0: Grid, ws: seq<Write>, c: Cell)
    requires forall i :: 0 <= i < |ws| ==> ws[i].at != c
    ensures (c in FillEmpty(g0, ws) <==> c in g0)
    ensures c in g0 ==> FillEmpty(g0, ws)[c] == g0[c]
  {
    if |ws| > 0 {
      FillEmptyUntouched(g0, ws[..|ws| - 1], c);
    }
  }

  /** The first store to a position empty in the original grid wins; later
      stores there find it painted. */
  lemma {:induction false} FillEmptyFirstWins(g0: Grid, ws: seq<Write>, i: nat)
    requires i < |ws| && !Painted(g0, ws[i].at)
    requires forall j :: 0 <= j < i ==> ws[j].at != ws[i].at
    requires forall j :: 0 <= j < |ws| ==> ws[j].color != ""
    ensures ws[i].at in FillEmpty(g0, ws) && FillEmpty(g0, ws)[ws[i].at] == ws[i].color
  {
    var init := ws[..|ws| - 1];
    if i == |ws| - 1 {
      FillEmptyUntouched(g0, init, ws[i].at);
    } else {
      FillEmptyFirstWins(g0, init, i);
    }
  }

  /** The index of the first store to `c`, or -1. */
  function FirstTo(ws: seq<Write>, c: Cell): (i: int)
    ensures -1 <= i < |ws|
    ensures i >= 0 ==> ws[i].at == c && forall j :: 0 <= j < i ==> ws[j].at != c
    ensures i == -1 ==> forall j :: 0 <= j < |ws| ==> ws[j].at != c
  {
    if |ws| == 0 then -1
    else if ws[0].at == c then 0
    else
      var r := FirstTo(ws[1..], c);
      if r < 0 then -1 else r + 1
  }

  /** Every store of layer `d` is a position at distance `d` from a key,
      carrying that key's shadow. */
  lemma {:induction false} LayerOrigin(g: Grid, ks: seq<Cell>, d: nat, i: nat)
    requires KeysOf(g, ks) && d <= 4 && i < |LayerWrites(g, ks, d)|
    ensures exists k :: (k in ks && LayerWrites(g, ks, d)[i].at in Ring(k, d)
      && LayerWrites(g, ks, d)[i].color == Shadow(g[k], Keep(d)))
  {
    var init := ks[..|ks| - 1];
    var k := ks[|ks| - 1];
    var head := LayerWrites(g, init, d);
    if i < |head| {
      LayerOrigin(g, init, d, i);
      var k' :| k' in init && head[i].at in Ring(k', d) && head[i].color == Shadow(g[k'], Keep(d));
      assert k' in ks;
    } else {
      assert LayerWrites(g, ks, d)[i] == RingWrites(k, d, Shadow(g[k], Keep(d)))[i - |head|];
    }
  }

  /** Layer `d` stores at every position at distance `d` from a key. */
  lemma {:induction false} LayerCovers(g: Grid, ks: seq<Cell>, d: nat, k: Cell, c: Cell)
    requires KeysOf(g, ks) && d <= 4 && k in ks && c in Ring(k, d)
    ensures exists i :: 0 <= i < |LayerWrites(g, ks, d)| && LayerWrites(g, ks, d)[i].at == c
  {
    var init := ks[..|ks| - 1];
    var last := ks[|ks| - 1];
    var head := LayerWrites(g, init, d);
    var ws := LayerWrites(g, ks, d);
    if k == last {
      var j :| 0 <= j < 8 && Ring(k, d)[j] == c;
      assert ws[|head| + j] == RingWrites(k, d, Shadow(g[k], Keep(d)))[j];
    } else {
      assert k in init;
      LayerCovers(g, init, d, k, c);
      var j :| 0 <= j < |head| && head[j].at == c;
      assert ws[j] == head[j];
    }
  }

  /** Every store of the first `n` layers comes from one of them. */
  lemma {:induction false} LayersOrigin(g: Grid, ks: seq<Cell>, n: nat, i: nat)
    requires KeysOf(g, ks) && n <= 3 && i < |Layers(g, ks, n)|
    ensures exists d, k :: (1 <= d <= n && k in ks && Layers(g, ks, n)[i].at in Ring(k, d)
      && Layers(g, ks, n)[i].color == Shadow(g[k], Keep(d)))
  {
    var head := Layers(g, ks, n - 1);
    if i < |head| {
      LayersOrigin(g, ks, n - 1, i);
      assert Layers(g, ks, n)[i] == head[i];
    } else {
      LayerOrigin(g, ks, n, i - |head|);
      assert Layers(g, ks, n)[i] == LayerWrites(g, ks, n)[i - |head|];
    }
  }

  /** The first `d` layers are a prefix of all three. */
  lemma {:induction false} LayersPrefix(g: Grid, ks: seq<Cell>, d: nat, n: nat, i: nat)
    requires KeysOf(g, ks) && d <= n <= 3 && i < |Layers(g, ks, d)|
    ensures i < |Layers(g, ks, n)| && Layers(g, ks, n)[i] == Layers(g, ks, d)[i]
  {
    if d < n {
      LayersPrefix(g, ks, d, n - 1, i);
    }
  }

  /** Store `j` of layer `d` follows the stores of the layers before it. */
  lemma LayerAt(g: Grid, ks: seq<Cell>, d: nat, j: nat)
    requires KeysOf(g, ks) && 1 <= d <= 3 && j < |LayerWrites(g, ks, d)|
    ensures |Layers(g, ks, d - 1)| + j < |Layers(g, ks, d)|
    ensures Layers(g, ks, d)[|Layers(g, ks, d - 1)| + j] == LayerWrites(g, ks, d)[j]
  {
  }

  /** Every shadow store has a non-empty colour. */
  lemma {:induction false} LayersColored(g: Grid, ks: seq<Cell>, n: nat)
    requires KeysOf(g, ks) && n <= 3
    ensures forall j :: 0 <= j < |Layers(g, ks, n)| ==> Layers(g, ks, n)[j].color != ""
  {
    forall j | 0 <= j < |Layers(g, ks, n)|
      ensures Layers(g, ks, n)[j].color != ""
    {
      LayersOrigin(g, ks, n, j);
    }
  }

  /** The first `n` layers store nowhere that is not at distance 1 to `n`
      from a key. */
  lemma NotInLayers(g: Grid, ks: seq<Cell>, c: Cell, n: nat, i: nat)
    requires KeysOf(g, ks) && n <= 3 && i < |Layers(g, ks, n)|
    requires forall e, k' :: 1 <= e <= n && k' in ks ==> c !in Ring(k', e)
    ensures Layers(g, ks, n)[i].at != c
  {
    LayersOrigin(g, ks, n, i);
  }

  /** Layer `d` stores at every position at distance `d` from a key, within
      its own span of the border stores. */
  lemma CoverIndex(g: Grid, ks: seq<Cell>, d: nat, k: Cell, c: Cell) returns (p: nat)
    requires KeysOf(g, ks) && 1 <= d <= 3 && k in ks && c in Ring(k, d)
    ensures |Layers(g, ks, d - 1)| <= p < |Layers(g, ks, d)|
    ensures p < |BorderWrites(g, ks)| && BorderWrites(g, ks)[p].at == c
  {
    LayerCovers(g, ks, d, k, c);
    var j :| 0 <= j < |LayerWrites(g, ks, d)| && LayerWrites(g, ks, d)[j].at == c;
    LayerAt(g, ks, d, j);
    p := |Layers(g, ks, d - 1)| + j;
    LayersPrefix(g, ks, d, 3, p);
  }

  /** No store before layer `d` reaches a position that is at no smaller
      distance than `d` from any key. */
  lemma EarlyStoreElsewhere(g: Grid, ks: seq<Cell>, c: Cell, d: nat, i: nat)
    requires KeysOf(g, ks) && 1 <= d <= 3 && i < |Layers(g, ks, d - 1)|
    requires forall e, k' :: 1 <= e < d && k' in ks ==> c !in Ring(k', e)
    ensures i < |BorderWrites(g, ks)| && BorderWrites(g, ks)[i].at != c
  {
    LayersPrefix(g, ks, d - 1, 3, i);
    NotInLayers(g, ks, c, d - 1, i);
  }

  /** The first store to a position at distance `d` from a key, and at no
      smaller distance from any, lies in layer `d`. */
  lemma FirstInLayer(g: Grid, ks: seq<Cell>, c: Cell, d: nat, k: Cell)
    requires KeysOf(g, ks) && 1 <= d <= 3
    requires k in ks && c in Ring(k, d)
    requires forall e, k' :: 1 <= e < d && k' in ks ==> c !in Ring(k', e)
    ensures var i := FirstTo(BorderWrites(g, ks), c);
      |Layers(g, ks, d - 1)| <= i < |Layers(g, ks, d)|
  {
    var p := CoverIndex(g, ks, d, k, c);
    var i := FirstTo(BorderWrites(g, ks), c);
    assert 0 <= i <= p;
    if i < |Layers(g, ks, d - 1)| {
      EarlyStoreElsewhere(g, ks, c, d, i);
    }
  }

  /** The nearer layer wins: an empty position at distance `d` from some
      painted cell, and at no smaller distance from any, takes the layer-`d`
      shadow of one of the cells at distance `d`. */
  lemma BorderLayerWins(g: Grid, ks: seq<Cell>, c: Cell, d: nat, k: Cell)
    requires KeysOf(g, ks) && 1 <= d <= 3 && !Painted(g, c)
    requires k in ks && c in Ring(k, d)
    requires forall e, k' :: 1 <= e < d && k' in ks ==> c !in Ring(k', e)
    ensures var out := FillEmpty(g, BorderWrites(g, ks));
      c in out && exists k' :: k' in ks && c in Ring(k', d) && out[c] == Shadow(g[k'], Keep(d))
  {
    var ws := BorderWrites(g, ks);
    FirstInLayer(g, ks, c, d, k);
    var i := FirstTo(ws, c);
    var k' := StoreOfLayer(g, ks, d, i);
    LayersColored(g, ks, 3);
    FillEmptyFirstWins(g, ws, i);
  }

  /** A store within the span of layer `d` is a layer-`d` shadow of a key. */
  lemma StoreOfLayer(g: Grid, ks: seq<Cell>, d: nat, i: nat) returns (k: Cell)
    requires KeysOf(g, ks) && 1 <= d <= 3
    requires |Layers(g, ks, d - 1)| <= i < |Layers(g, ks, d)|
    ensures i < |BorderWrites(g, ks)|
    ensures k in ks && BorderWrites(g, ks)[i].at in Ring(k, d)
    ensures BorderWrites(g, ks)[i].color == Shadow(g[k], Keep(d))
  {
    var before := Layers(g, ks, d - 1);
    LayersPrefix(g, ks, d, 3, i);
    LayerAt(g, ks, d, i - |before|);
    var w := LayerWrites(g, ks, d)[i - |before|];
    LayerOrigin(g, ks, d, i - |before|);
    k :| k in ks && w.at in Ring(k, d) && w.color == Shadow(g[k], Keep(d));
  }

  /** The border adds a position only at distance 1, 2 or 3 from a key. */
  lemma BorderOnlyNear(g: Grid, ks: seq<Cell>, c: Cell)
    requires KeysOf(g, ks)
    requires c in FillEmpty(g, BorderWrites(g, ks)) && c !in g
    ensures exists d, k :: 1 <= d <= 3 && k in ks && c in Ring(k, d)
  {
    var ws := BorderWrites(g, ks);
    FillEmptyKeeps(g, ws);
    var i :| 0 <= i < |ws| && ws[i].at == c;
    LayersOrigin(g, ks, 3, i);
  }

  /** The border grid: the stores of all three layers in order. */
  method BorderGrid(g: Grid, ks: seq<Cell>) returns (out: Grid)
    requires StoredColors(g) && IsKeyOrder(ks, g)
    ensures KeysOf(g, ks) && out == FillEmpty(g, BorderWrites(g, ks))
    ensures StoredColors(out)
  {
    KeyOrderKeys(g, ks);
    var ws := BorderWrites(g, ks);
    out := g;
    var i := 0;
    while i < |ws|
      invariant 0 <= i <= |ws|
      invariant out == FillEmpty(g, ws[..i])
    {
      FillEmptyPrefix(g, ws, i);
      var w := ws[i];
      if !Painted(g, w.at) && !Painted(out, w.at) {
        out := out[w.at := w.color];
      }
      i := i + 1;
    }
    assert ws[..i] == ws;
    BorderColors(g, ks);
  }

  /** The keys in iteration order of a grid of stored colours are its
      keys, each holding a stored colour. */
  lemma KeyOrderKeys(g: Grid, ks: seq<Cell>)
    requires StoredColors(g) && IsKeyOrder(ks, g)
    ensures KeysOf(g, ks)
  {
    forall i | 0 <= i < |ks|
      ensures ks[i] in g
    {
      assert ks[i] in ks;
    }
  }

  /** One more store on a prefix of the writes. */
  lemma FillEmptyPrefix(g0: Grid, ws: seq<Write>, i: nat)
    requires i < |ws|
    ensures var acc, w := FillEmpty(g0, ws[..i]), ws[i];
      FillEmpty(g0, ws[..i + 1]) == if !Painted(g0, w.at) && !Painted(acc, w.at) then acc[w.at := w.color] else acc
  {
    assert ws[..i + 1][..i] == ws[..i];
  }

  /** The border grid holds only stored colours. */
  lemma BorderColors(g: Grid, ks: seq<Cell>)
    requires StoredColors(g) && KeysOf(g, ks)
    ensures StoredColors(FillEmpty(g, BorderWrites(g, ks)))
  {
    var ws := BorderWrites(g, ks);
    forall j | 0 <= j < |ws|
      ensures IsStoredColor(ws[j].color)
    {
      LayersOrigin(g, ks, 3, j);
    }
    FillEmptyColors(g, ws);
  }

  lemma {:induction false} FillEmptyColors(g0: Grid, ws: seq<Write>)
    requires StoredColors(g0) && forall j :: 0 <= j < |ws| ==> IsStoredColor(ws[j].color)
    ensures StoredColors(FillEmpty(g0, ws))
  {
    if |ws| > 0 {
      FillEmptyColors(g0, ws[..|ws| - 1]);
    }
  }

  // --------------------------------------------------------------- contour

  /** Some side neighbour of `c` is a key in `s`. */
  predicate NextToKey(s: set<Cell>, c: Cell)
  {
    var ns := Neighbours4(c.x, c.y);
    ns[0] in s || ns[1] in s || ns[2] in s || ns[3] in s
  }

  /** Side neighbourhood is symmetric. */
  lemma NeighboursSymmetric(k: Cell, c: Cell)
    ensures c in Neighbours4(k.x, k.y) <==> k in Neighbours4(c.x, c.y)
  {
  }

  /** An empty position next to some key of the grid: a position the side
      neighbour scan of some cell reaches and finds empty. */
  predicate IsContourSpot(g: Grid, c: Cell)
  {
    !Painted(g, c) && NextToKey(g.Keys, c)
  }

  /** The toggled grid: every key kept, the contour spots added in black. */
  ghost predicate IsToggled(g: Grid, out: Grid)
  {
    (forall c :: c in out <==> c in g || IsContourSpot(g, c))
    && (forall c :: c in out ==> out[c] == if IsContourSpot(g, c) then Black else g[c])
  }

  /** The toggled grid of a grid of stored colours holds stored colours. */
  lemma ToggledColors(g: Grid, out: Grid)
    requires StoredColors(g) && IsToggled(g, out)
    ensures StoredColors(out)
  {
    assert IsStoredColor(Black);
    forall c | c in out
      ensures IsStoredColor(out[c])
    {
      if !IsContourSpot(g, c) {
        assert c in g && out[c] == g[c];
      }
    }
  }

  /** The spots found after the first `i` keys. */
  function SpotScan(g: Grid, ks: seq<Cell>, i: nat): set<Cell>
    requires i <= |ks|
  {
    if i == 0 then {}
    else
      var k := ks[i - 1];
      SpotScan(g, ks, i - 1) + set n | n in Neighbours4(k.x, k.y) && !Painted(g, n)
  }

  /** The spots after `i` keys are the empty positions next to one of
      them. */
  lemma {:induction false} SpotScanMember(g: Grid, ks: seq<Cell>, i: nat, c: Cell)
    requires i <= |ks|
    ensures c in SpotScan(g, ks, i) <==> !Painted(g, c) && NextToKey(set j | 0 <= j < i :: ks[j], c)
  {
    if i > 0 {
      SpotScanMember(g, ks, i - 1, c);
      var k := ks[i - 1];
      assert (set j | 0 <= j < i :: ks[j]) == (set j | 0 <= j < i - 1 :: ks[j]) + {k};
      NeighboursSymmetric(k, c);
    }
  }

  /** The spot set: the empty side neighbours of every key, in key order. */
  method ContourSpots(g: Grid, ks: seq<Cell>) returns (spots: set<Cell>)
    requires IsKeyOrder(ks, g)
    ensures forall c :: c in spots <==> IsContourSpot(g, c)
  {
    spots := {};
    var i := 0;
    while i < |ks|
      invariant 0 <= i <= |ks|
      invariant spots == SpotScan(g, ks, i)
    {
      var k := ks[i];
      var ns := Neighbours4(k.x, k.y);
      ghost var before := spots;
      var n := 0;
      while n < 4
        invariant 0 <= n <= 4
        invariant spots == before + set m | m in ns[..n] && !Painted(g, m)
      {
        if !Painted(g, ns[n]) {
          spots := spots + {ns[n]};
        }
        assert ns[..n + 1] == ns[..n] + [ns[n]];
        n := n + 1;
      }
      assert ns[..4] == ns;
      i := i + 1;
    }
    assert (set j | 0 <= j < |ks| :: ks[j]) == g.Keys by {
      forall c | c in g
        ensures c in (set j | 0 <= j < |ks| :: ks[j])
      {
        var j :| 0 <= j < |ks| && ks[j] == c;
      }
    }
    forall c
      ensures c in spots <==> IsContourSpot(g, c)
    {
      SpotScanMember(g, ks, |ks|, c);
    }
  }

  /** The spot set painted black over a copy of the grid. */
  method PaintSpots(g: Grid, spots: set<Cell>) returns (out: Grid)
    ensures forall c :: c in out <==> c in g || c in spots
    ensures forall c :: c in out ==> out[c] == if c in spots then Black else g[c]
  {
    out := g;
    var rest := spots;
    while rest != {}
      invariant rest <= spots
      invariant forall c :: c in out <==> c in g || c in spots - rest
      invariant forall c :: c in out ==> out[c] == if c in spots - rest then Black else g[c]
      decreases rest
    {
      var c :| c in rest;
      out := out[c := Black];
      rest := rest - {c};
    }
  }

  method ToggledGrid(g: Grid, ks: seq<Cell>) returns (out: Grid)
    requires IsKeyOrder(ks, g)
    ensures IsToggled(g, out)
  {
    var spots := ContourSpots(g, ks);
    out := PaintSpots(g, spots);
  }

  /** `neighbors.some(...)`: a side neighbour is missing or empty. */
  predicate HasEmptyNeighbour(g: Grid, c: Cell)
  {
    var ns := Neighbours4(c.x, c.y);
    !Painted(g, ns[0]) || !Painted(g, ns[1]) || !Painted(g, ns[2]) || !Painted(g, ns[3])
  }

  /** The colour addProfessionalContour gives a key. */
  function ContourColor(g: Grid, c: Cell): string
    requires c in g
  {
    if HasEmptyNeighbour(g, c) then Black else g[c]
  }

  /** The grid after the first `i` keys of the scan. */
  function ContourScan(g: Grid, ks: seq<Cell>, i: nat): Grid
    requires i <= |ks|
  {
    if i == 0 then g
    else
      var k := ks[i - 1];
      var acc := ContourScan(g, ks, i - 1);
      if HasEmptyNeighbour(g, k) then acc[k := Black] else acc
  }

  /** The scan adds no key. */
  lemma {:induction false} ContourScanKeys(g: Grid, ks: seq<Cell>, i: nat)
    requires i <= |ks| && forall j :: 0 <= j < |ks| ==> ks[j] in g
    ensures ContourScan(g, ks, i).Keys == g.Keys
  {
    if i > 0 {
      ContourScanKeys(g, ks, i - 1);
    }
  }

  /** After the first `i` keys, a key among them has its contour colour
      and any other key its own. */
  lemma {:induction false} ContourScanValue(g: Grid, ks: seq<Cell>, i: nat, c: Cell)
    requires i <= |ks| && forall j :: 0 <= j < |ks| ==> ks[j] in g
    requires c in g
    ensures c in ContourScan(g, ks, i)
    ensures ContourScan(g, ks, i)[c] == if c in ks[..i] then ContourColor(g, c) else g[c]
  {
    ContourScanKeys(g, ks, i);
    if i > 0 {
      ContourScanValue(g, ks, i - 1, c);
      assert ks[..i] == ks[..i - 1] + [ks[i - 1]];
    }
  }

  /** addProfessionalContour: the same keys; every cell with an empty side
      neighbour in the original becomes black, the others keep their
      colour. */
  method AddProfessionalContour(g: Grid, ks: seq<Cell>) returns (out: Grid)
    requires IsKeyOrder(ks, g)
    ensures out.Keys == g.Keys
    ensures forall c :: c in out ==> out[c] == ContourColor(g, c)
  {
    out := g;
    var i := 0;
    while i < |ks|
      invariant 0 <= i <= |ks|
      invariant out == ContourScan(g, ks, i)
    {
      var k := ks[i];
      var ns := Neighbours4(k.x, k.y);
      var hasEmpty := !Painted(g, ns[0]) || !Painted(g, ns[1]) || !Painted(g, ns[2]) || !Painted(g, ns[3]);
      if hasEmpty {
        out := out[k := Black];
      }
      i := i + 1;
    }
    assert forall j :: 0 <= j < |ks| ==> ks[j] in g by {
      forall j | 0 <= j < |ks|
        ensures ks[j] in g
      {
        assert ks[j] in ks;
      }
    }
    ContourScanKeys(g, ks, |ks|);
    assert ks[..|ks|] == ks;
    forall c | c in out
      ensures out[c] == ContourColor(g, c)
    {
      ContourScanValue(g, ks, |ks|, c);
    }
  }

  /** The professional contour as a function of the grid. */
  function ProfessionalContour(g: Grid): (out: Grid)
    ensures out.Keys == g.Keys
  {
    map c | c in g :: ContourColor(g, c)
  }

  /** Applied twice it changes nothing more: black is not empty, so the
      painted cells, and with them the border cells, stay the same. */
  lemma ProfessionalContourIdempotent(g: Grid)
    requires forall c :: c in g ==> g[c] != ""
    ensures ProfessionalContour(ProfessionalContour(g)) == ProfessionalContour(g)
  {
    var once := ProfessionalContour(g);
    var twice := ProfessionalContour(once);
    forall c | c in twice
      ensures twice[c] == once[c]
    {
      SameBorder(g, c);
    }
  }

  /** Over a grid with no empty strings the contour leaves every
      neighbourhood judged as before. */
  lemma SameBorder(g: Grid, c: Cell)
    requires forall c :: c in g ==> g[c] != ""
    ensures HasEmptyNeighbour(ProfessionalContour(g), c) == HasEmptyNeighbour(g, c)
  {
    var ns := Neighbours4(c.x, c.y);
    PaintedKept(g, ns[0]);
    PaintedKept(g, ns[1]);
    PaintedKept(g, ns[2]);
    PaintedKept(g, ns[3]);
  }

  lemma PaintedKept(g: Grid, n: Cell)
    requires forall c :: c in g ==> g[c] != ""
    ensures Painted(ProfessionalContour(g), n) == Painted(g, n)
  {
    if n in g {
      assert ProfessionalContour(g)[n] == ContourColor(g, n);
    }
  }
}
