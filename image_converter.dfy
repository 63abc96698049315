/** The grid converter of the editor: every pixel of the square working
    image that is not pure white becomes a cell holding the hex string of
    the DMC palette colour nearest to it in Manhattan distance. */
module ImageConverter {
  import opened Pixels
  import opened Select
  import opened Hex
  import opened Raster
  import opened DmcColors

  /** The palette colour as findClosestDMC reads it: `parseInt` of the hex
      slices [1, 3), [3, 5) and [5, 7). */
  function EntryRgb(e: Entry): Rgb
    requires IsStoredColor(e.hex)
  {
    Rgb(PairValue(e.hex, 1), PairValue(e.hex, 3), PairValue(e.hex, 5))
  }

  /** Reading the slices gives the channels hexToRgb gives. */
  lemma EntryRgbIsHexToRgb(e: Entry)
    requires IsStoredColor(e.hex)
    ensures HexToRgb(e.hex) == Some((EntryRgb(e).r, EntryRgb(e).g, EntryRgb(e).b))
  {
    StoredColorValue(e.hex);
  }

  predicate StoredPalette(palette: seq<Entry>)
  {
    forall i :: 0 <= i < |palette| ==> IsStoredColor(palette[i].hex)
  }

  /** `|dmcR - r| + |dmcG - g| + |dmcB - b|`. */
  function Manhattan(e: Entry, r: byte, g: byte, b: byte): (d: nat)
    requires IsStoredColor(e.hex)
    ensures d == 0 <==> EntryRgb(e) == Rgb(r, g, b)
  {
    var c := EntryRgb(e);
    Abs(c.r - r) + Abs(c.g - g) + Abs(c.b - b)
  }

  function ManhattanTo(palette: seq<Entry>, r: byte, g: byte, b: byte): Entry -> real
  {
    (e: Entry) => if IsStoredColor(e.hex) then Manhattan(e, r, g, b) as real else 0.0
  }

  /** The palette entry findClosestDMC ends on: the first one at the least
      Manhattan distance. */
  function ClosestDmc(r: byte, g: byte, b: byte, palette: seq<Entry>): (e: Entry)
    requires |palette| > 0 && StoredPalette(palette)
    ensures e in palette
    ensures forall k :: 0 <= k < |palette| ==> Manhattan(e, r, g, b) <= Manhattan(palette[k], r, g, b)
    ensures exists i :: IsFirstMin(Distances(palette, ManhattanTo(palette, r, g, b)), i) && e == palette[i]
  {
    var e := Nearest(palette, ManhattanTo(palette, r, g, b));
    assert forall k :: 0 <= k < |palette| ==>
      ManhattanTo(palette, r, g, b)(e) <= ManhattanTo(palette, r, g, b)(palette[k]);
    e
  }

  /** findClosestDMC: `closestDMC` starts at the first entry, which the
      first comparison against `Infinity` keeps, and moves only on a
      strictly smaller distance. */
  method FindClosestDmc(r: byte, g: byte, b: byte, palette: seq<Entry>) returns (closest: Entry)
    requires |palette| > 0 && StoredPalette(palette)
    ensures closest == ClosestDmc(r, g, b, palette)
  {
    var best := ClosestIndex(palette, ManhattanTo(palette, r, g, b));
    NearestAt(palette, ManhattanTo(palette, r, g, b), best);
    closest := palette[best];
  }

  /** A pixel of a palette colour finds an entry of exactly that colour. */
  lemma PaletteColorIsExact(palette: seq<Entry>, k: nat)
    requires |palette| > 0 && StoredPalette(palette) && k < |palette|
    ensures var c := EntryRgb(palette[k]);
      EntryRgb(ClosestDmc(c.r, c.g, c.b, palette)) == c
  {
    var c := EntryRgb(palette[k]);
    assert Manhattan(palette[k], c.r, c.g, c.b) == 0;
  }

  /** The background test: `r === 255 && g === 255 && b === 255`. */
  predicate IsWhite(p: Rgba)
  {
    p.r == 255 && p.g == 255 && p.b == 255
  }

  /** The hex string a pixel's cell receives. */
  function CellHex(p: Rgba): (s: string)
  {
    ColorArrayWellFormed();
    ClosestDmc(p.r, p.g, p.b, ColorArray()).hex
  }

  /** Every cell the converter writes holds a palette hex string, itself a
      stored colour. */
  lemma CellHexInPalette(p: Rgba)
    ensures exists i :: 0 <= i < |ColorArray()| && CellHex(p) == ColorArray()[i].hex
    ensures IsStoredColor(CellHex(p))
  {
    ColorArrayWellFormed();
    var e := ClosestDmc(p.r, p.g, p.b, ColorArray());
    var i :| 0 <= i < |ColorArray()| && ColorArray()[i] == e;
  }

  /** One pixel's lookup: findClosestDMC against getColorArray. */
  method PixelHex(p: Rgba) returns (s: string)
    ensures s == CellHex(p)
  {
    ColorArrayWellFormed();
    var closest := FindClosestDmc(p.r, p.g, p.b, ColorArray());
    s := closest.hex;
  }

  /** A pixel that receives a cell: inside the image and not pure white. */
  predicate Kept(img: seq<Rgba>, size: nat, c: Cell)
  {
    InBounds(size, size, c.x, c.y) && !IsWhite(Get(img, size, size, c.x, c.y))
  }

  /** The cells the grid holds once the loop has passed row `y` up to
      column `x`: the kept pixels before that point. */
  predicate KeptBefore(img: seq<Rgba>, size: nat, c: Cell, y: int, x: int)
  {
    Kept(img, size, c) && (c.y < y || (c.y == y && c.x < x))
  }

  /** The grid holds the palette hex of its cell's pixel. */
  predicate HoldsCellHex(img: seq<Rgba>, size: nat, grid: map<Cell, string>)
  {
    forall c :: c in grid ==> grid[c] == CellHex(Get(img, size, size, c.x, c.y))
  }

  /** The pixel loop of processImage over the `size` x `size` working
      image: rows top to bottom, pixels left to right, pure white skipped,
      every other pixel keyed `x,y` with its palette hex. */
  method PixelsToGrid(img: seq<Rgba>, size: nat) returns (grid: map<Cell, string>)
    requires IsImage(img, size, size)
    ensures forall c :: c in grid <==> Kept(img, size, c)
    ensures forall c :: c in grid ==> grid[c] == CellHex(Get(img, size, size, c.x, c.y))
  {
    grid := map[];
    var y := 0;
    while y < size
      invariant 0 <= y <= size
      invariant forall c :: c in grid <==> KeptBefore(img, size, c, y, 0)
      invariant HoldsCellHex(img, size, grid)
    {
      grid := RowToGrid(img, size, y, grid);
      y := y + 1;
    }
  }

  /** One row of the pixel loop, left to right. */
  method RowToGrid(img: seq<Rgba>, size: nat, y: nat, grid0: map<Cell, string>) returns (grid: map<Cell, string>)
    requires IsImage(img, size, size) && y < size
    requires forall c :: c in grid0 <==> KeptBefore(img, size, c, y, 0)
    requires HoldsCellHex(img, size, grid0)
    ensures forall c :: c in grid <==> KeptBefore(img, size, c, y + 1, 0)
    ensures HoldsCellHex(img, size, grid)
  {
    grid := grid0;
    var x := 0;
    while x < size
      invariant 0 <= x <= size
      invariant forall c :: c in grid <==> KeptBefore(img, size, c, y, x)
      invariant HoldsCellHex(img, size, grid)
    {
      grid := VisitPixel(img, size, y, x, grid);
      x := x + 1;
    }
    RowEnd(img, size, y);
  }

  /** The body of the pixel loop at (x, y): a pixel that is not pure white
      is added under its cell. */
  method VisitPixel(img: seq<Rgba>, size: nat, y: nat, x: nat, grid0: map<Cell, string>)
    returns (grid: map<Cell, string>)
    requires x < size && y < size
    requires forall c :: c in grid0 <==> KeptBefore(img, size, c, y, x)
    requires HoldsCellHex(img, size, grid0)
    ensures forall c :: c in grid <==> KeptBefore(img, size, c, y, x + 1)
    ensures HoldsCellHex(img, size, grid)
  {
    grid := grid0;
    var p := Get(img, size, size, x, y);
    if !(p.r == 255 && p.g == 255 && p.b == 255) {
      var hex := PixelHex(p);
      CellHexStep(img, size, grid, Cell(x, y), hex);
      grid := grid[Cell(x, y) := hex];
    }
    KeptStep(img, size, y, x, p, grid0, grid);
  }

  /** Storing a pixel's palette hex under its cell keeps every cell's
      value right. */
  lemma CellHexStep(img: seq<Rgba>, size: nat, grid: map<Cell, string>, c: Cell, hex: string)
    requires HoldsCellHex(img, size, grid)
    requires hex == CellHex(Get(img, size, size, c.x, c.y))
    ensures HoldsCellHex(img, size, grid[c := hex])
  {
  }

  /** Passing pixel (x, y), of colour `p`, adds that cell, when it is
      kept, and no other. */
  lemma KeptStep(img: seq<Rgba>, size: nat, y: nat, x: nat, p: Rgba,
                 grid0: map<Cell, string>, grid: map<Cell, string>)
    requires x < size && y < size && p == Get(img, size, size, x, y)
    requires forall c :: c in grid0 <==> KeptBefore(img, size, c, y, x)
    requires forall c :: c in grid <==> c in grid0 || (c == Cell(x, y) && !IsWhite(p))
    ensures forall c :: c in grid <==> KeptBefore(img, size, c, y, x + 1)
  {
  }

  /** The end of row `y` is the start of row `y + 1`. */
  lemma RowEnd(img: seq<Rgba>, size: nat, y: nat)
    ensures forall c :: KeptBefore(img, size, c, y, size) <==> KeptBefore(img, size, c, y + 1, 0)
  {
  }
}
