/** The drawing tools of the grid editor: pencil and eraser on one cell,
    the colour lookup, and the 4-connected flood fill bounded to the
    100 x 100 board. */
module CanvasTools {
  import opened Pixels
  import opened AppEditor

  /** drawPixel on a copy of the grid: the eraser removes the cell, the
      pencil stores the colour, any other tool leaves the copy as it was. */
  function DrawPixel(tool: string, g: Grid, c: Cell, color: string): (out: Grid)
    ensures tool == "eraser" ==> c !in out
    ensures tool == "pencil" ==> c in out && out[c] == color
    ensures tool != "eraser" && tool != "pencil" ==> out == g
    ensures forall k :: k != c ==> (k in out <==> k in g) && (k in out ==> out[k] == g[k])
  {
    if tool == "eraser" then g - {c}
    else if tool == "pencil" then g[c := color]
    else g
  }

  /** getPixelColor: the stored colour, or null for a missing or empty
      one. */
  function PixelColor(g: Grid, c: Cell): (r: Option<string>)
    ensures r.Some? <==> Painted(g, c)
    ensures r.Some? ==> r.value == g[c]
  {
    if c in g && g[c] != "" then Some(g[c]) else None
  }

  /** Reading a cell back after drawing on it: the pencil's colour (none for
      an empty string), nothing after the eraser. */
  lemma DrawThenRead(tool: string, g: Grid, c: Cell, color: string)
    ensures tool == "eraser" ==> PixelColor(DrawPixel(tool, g, c, color), c) == None
    ensures tool == "pencil" ==>
      PixelColor(DrawPixel(tool, g, c, color), c) == if color == "" then None else Some(color)
  {
  }

  /** The cells the fill may push: the 100 x 100 board. */
  predicate OnBoard(c: Cell)
  {
    0 <= c.x < 100 && 0 <= c.y < 100
  }

  /** The side neighbours in push order. */
  function FillNeighbours(c: Cell): seq<Cell>
  {
    [Cell(c.x + 1, c.y), Cell(c.x - 1, c.y), Cell(c.x, c.y + 1), Cell(c.x, c.y - 1)]
  }

  ghost function Board(): set<Cell>
  {
    set x: int, y: int | 0 <= x < 100 && 0 <= y < 100 :: Cell(x, y)
  }

  lemma OnBoardInBoard(c: Cell)
    requires OnBoard(c)
    ensures c in Board()
  {
    assert c == Cell(c.x, c.y);
  }

  /** The cells of `ns` on the board, in order. */
  function OnBoardOf(ns: seq<Cell>): (r: seq<Cell>)
    ensures forall n :: n in r <==> n in ns && OnBoard(n)
  {
    if ns == [] then []
    else
      var last := ns[|ns| - 1];
      assert ns == ns[..|ns| - 1] + [last];
      OnBoardOf(ns[..|ns| - 1]) + if OnBoard(last) then [last] else []
  }

  /** The neighbour pushes of one filled cell: the four side neighbours in
      order, each only when on the board. */
  method PushNeighbours(stack: seq<Cell>, c: Cell) returns (s: seq<Cell>)
    ensures s == stack + OnBoardOf(FillNeighbours(c))
  {
    var ns := FillNeighbours(c);
    s := stack;
    var j := 0;
    while j < 4
      invariant 0 <= j <= 4
      invariant s == stack + OnBoardOf(ns[..j])
    {
      var n := ns[j];
      assert ns[..j + 1][..j] == ns[..j];
      if n.x >= 0 && n.y >= 0 && n.x < 100 && n.y < 100 {
        s := s + [n];
      }
      j := j + 1;
    }
    assert ns[..4] == ns;
  }

  /** What holds between iterations of the fill loop: the stack and the
      visited set hold only the start and cells on the board; the start has
      been visited or is still on the stack; the filled cells are the
      visited ones of the target colour and the only ones the grid
      changes; and every on-board side neighbour of a filled cell has been
      visited or is still on the stack. */
  ghost predicate FillState(g: Grid, start: Cell, target: Option<string>, newColor: string,
                            stack: seq<Cell>, visited: set<Cell>, filled: set<Cell>, out: Grid)
  {
    (forall i :: 0 <= i < |stack| ==> stack[i] == start || OnBoard(stack[i]))
    && (forall c :: c in visited ==> c == start || OnBoard(c))
    && (start in visited || start in stack)
    && (forall c :: c in filled <==> c in visited && PixelColor(g, c) == target)
    && (forall c :: c in out <==> c in g || c in filled)
    && (forall c :: c in out ==> out[c] == if c in filled then newColor else g[c])
    && (forall c, n :: c in filled && n in FillNeighbours(c) && OnBoard(n) ==> n in visited || n in stack)
  }

  /** `b` is one of the side neighbours of `a`. */
  predicate Adjacent(a: Cell, b: Cell)
  {
    b in FillNeighbours(a)
  }

  /** A fill order rooted at `start`: its first cell is the start, and
      every later cell is new and a side neighbour of a cell before it. */
  ghost predicate Linked(start: Cell, order: seq<Cell>)
    decreases |order|
  {
    if order == [] then true
    else
      var prefix, last := order[..|order| - 1], order[|order| - 1];
      Linked(start, prefix) && last !in prefix
      && if prefix == [] then last == start else exists d :: d in prefix && Adjacent(d, last)
  }

  /** A linked order starts with the start and lists no cell twice. */
  lemma {:induction false} LinkedShape(start: Cell, order: seq<Cell>)
    requires Linked(start, order)
    ensures |order| > 0 ==> order[0] == start
    ensures forall i, j :: 0 <= i < j < |order| ==> order[i] != order[j]
    decreases |order|
  {
    if order != [] {
      var m := |order| - 1;
      var prefix := order[..m];
      LinkedShape(start, prefix);
      forall i, j | 0 <= i < j < |order|
        ensures order[i] != order[j]
      {
        assert order[i] == prefix[i];
        if j < m {
          assert order[j] == prefix[j];
        } else {
          assert prefix[i] in prefix;
        }
      }
    }
  }

  /** What the fill loop keeps about the order of filling: `order` lists
      the filled cells, it is linked from the start, and every stacked cell
      but the start was pushed by a filled cell it is a side neighbour
      of. */
  ghost predicate FillTrail(start: Cell, stack: seq<Cell>, filled: set<Cell>, order: seq<Cell>)
  {
    (forall c :: c in filled <==> c in order)
    && Linked(start, order)
    && (forall n :: n in stack && n != start ==> exists d :: d in order && Adjacent(d, n))
  }

  /** Popping a cell without filling it keeps the trail. */
  lemma TrailPop(start: Cell, stack: seq<Cell>, filled: set<Cell>, order: seq<Cell>)
    requires FillTrail(start, stack, filled, order)
    requires |stack| > 0
    ensures FillTrail(start, stack[..|stack| - 1], filled, order)
  {
    var m := |stack| - 1;
    forall n | n in stack[..m]
      ensures n in stack
    {
      var k :| 0 <= k < m && stack[..m][k] == n;
      assert stack[k] == n;
    }
  }

  /** Filling a popped cell not filled before appends it to the order: it
      is the start when nothing was filled yet, and otherwise it was pushed
      by an earlier filled cell; its pushes are side neighbours of it. */
  lemma TrailFill(start: Cell, stack: seq<Cell>, filled: set<Cell>, order: seq<Cell>)
    requires FillTrail(start, stack, filled, order)
    requires |stack| > 0 && stack[|stack| - 1] !in filled
    ensures var c := stack[|stack| - 1];
      FillTrail(start, stack[..|stack| - 1] + OnBoardOf(FillNeighbours(c)), filled + {c}, order + [c])
  {
    var m := |stack| - 1;
    var c := stack[m];
    var rest := stack[..m];
    var pushed := OnBoardOf(FillNeighbours(c));
    var o := order + [c];
    assert stack == rest + [c];
    assert c in stack;
    LinkedShape(start, order);
    if |order| > 0 {
      assert order[0] in order;
      assert c != start;
    }
    LinkedAppend(start, order, c);
    forall n | n in rest + pushed && n != start
      ensures exists d :: d in o && Adjacent(d, n)
    {
      if n in rest {
        assert n in stack;
        var d :| d in order && Adjacent(d, n);
        assert d in o;
      } else {
        assert n in FillNeighbours(c);
        assert c in o && Adjacent(c, n);
      }
    }
  }

  /** A cell not yet in a linked order may be appended to it when it is the
      start of an empty order or a side neighbour of a cell in it. */
  lemma LinkedAppend(start: Cell, order: seq<Cell>, c: Cell)
    requires Linked(start, order) && c !in order
    requires |order| == 0 ==> c == start
    requires |order| > 0 ==> exists d :: d in order && Adjacent(d, c)
    ensures Linked(start, order + [c])
  {
    assert (order + [c])[..|order|] == order;
  }

  /** A walk over side neighbours from `start` to `c` that stays
      inside `region`. */
  ghost predicate WalkIn(p: seq<Cell>, start: Cell, c: Cell, region: set<Cell>)
  {
    |p| > 0 && p[0] == start && p[|p| - 1] == c
    && (forall k :: 0 < k < |p| ==> Adjacent(p[k - 1], p[k]))
    && (forall k :: 0 <= k < |p| ==> p[k] in region)
  }

  /** A walk extended by one side step. */
  lemma WalkStep(p: seq<Cell>, start: Cell, c: Cell, n: Cell, region: set<Cell>)
    requires WalkIn(p, start, c, region) && Adjacent(c, n) && n in region
    ensures WalkIn(p + [n], start, n, region)
  {
    var p' := p + [n];
    forall k | 0 < k < |p'|
      ensures Adjacent(p'[k - 1], p'[k])
    {
      if k < |p| {
        assert p'[k - 1] == p[k - 1] && p'[k] == p[k];
      }
    }
    forall k | 0 <= k < |p'|
      ensures p'[k] in region
    {
      if k < |p| {
        assert p'[k] == p[k];
      }
    }
  }

  /** Every cell of a linked order is reached from the start by a walk
      over side neighbours through cells of the order. */
  lemma {:induction false} LinkedReaches(start: Cell, order: seq<Cell>, region: set<Cell>, j: nat)
    requires Linked(start, order) && j < |order|
    requires forall c :: c in order ==> c in region
    ensures exists p :: WalkIn(p, start, order[j], region)
    decreases |order|
  {
    var m := |order| - 1;
    var prefix := order[..m];
    assert forall c :: c in prefix ==> c in order;
    if j < m {
      LinkedReaches(start, prefix, region, j);
      assert prefix[j] == order[j];
    } else if prefix == [] {
      assert order[j] in order;
      assert WalkIn([start], start, order[j], region);
    } else {
      var d :| d in prefix && Adjacent(d, order[j]);
      var i :| 0 <= i < m && prefix[i] == d;
      LinkedReaches(start, prefix, region, i);
      var p :| WalkIn(p, start, d, region);
      assert order[j] in order;
      WalkStep(p, start, d, order[j], region);
    }
  }

  /** The cells a linked order lists are 4-connected to the start through
      cells it lists. */
  lemma FilledConnected(start: Cell, filled: set<Cell>, order: seq<Cell>)
    requires (forall c :: c in filled <==> c in order) && Linked(start, order)
    ensures forall c :: c in filled ==> exists p :: WalkIn(p, start, c, filled)
  {
    forall c | c in filled
      ensures exists p :: WalkIn(p, start, c, filled)
    {
      var j :| 0 <= j < |order| && order[j] == c;
      LinkedReaches(start, order, filled, j);
    }
  }

  /** Popping a cell already visited. */
  lemma PopVisited(g: Grid, start: Cell, target: Option<string>, newColor: string,
                   stack: seq<Cell>, visited: set<Cell>, filled: set<Cell>, out: Grid)
    requires FillState(g, start, target, newColor, stack, visited, filled, out)
    requires |stack| > 0 && stack[|stack| - 1] in visited
    ensures FillState(g, start, target, newColor, stack[..|stack| - 1], visited, filled, out)
  {
    var m := |stack| - 1;
    assert stack == stack[..m] + [stack[m]];
  }

  /** Popping an unvisited cell of another colour. */
  lemma PopOther(g: Grid, start: Cell, target: Option<string>, newColor: string,
                 stack: seq<Cell>, visited: set<Cell>, filled: set<Cell>, out: Grid)
    requires FillState(g, start, target, newColor, stack, visited, filled, out)
    requires |stack| > 0 && PixelColor(g, stack[|stack| - 1]) != target
    ensures FillState(g, start, target, newColor, stack[..|stack| - 1], visited + {stack[|stack| - 1]}, filled, out)
  {
    var m := |stack| - 1;
    assert stack == stack[..m] + [stack[m]];
  }

  /** Popping an unvisited cell of the target colour: it is recoloured and
      its on-board side neighbours are pushed. */
  lemma PopFill(g: Grid, start: Cell, target: Option<string>, newColor: string,
                stack: seq<Cell>, visited: set<Cell>, filled: set<Cell>, out: Grid)
    requires FillState(g, start, target, newColor, stack, visited, filled, out)
    requires |stack| > 0 && PixelColor(g, stack[|stack| - 1]) == target
    ensures var c := stack[|stack| - 1];
      FillState(g, start, target, newColor, stack[..|stack| - 1] + OnBoardOf(FillNeighbours(c)),
                visited + {c}, filled + {c}, out[c := newColor])
  {
    var m := |stack| - 1;
    var c := stack[m];
    assert stack == stack[..m] + [c];
    PushedOnBoard(start, stack[..m], c);
    var s := stack[..m] + OnBoardOf(FillNeighbours(c));
    forall d, n | d in filled + {c} && n in FillNeighbours(d) && OnBoard(n)
      ensures n in visited + {c} || n in s
    {
      if d == c {
        assert n in OnBoardOf(FillNeighbours(c));
      }
    }
  }

  /** After the pushes the stack still holds only the start and cells on
      the board. */
  lemma PushedOnBoard(start: Cell, rest: seq<Cell>, c: Cell)
    requires forall i :: 0 <= i < |rest| ==> rest[i] == start || OnBoard(rest[i])
    ensures var s := rest + OnBoardOf(FillNeighbours(c));
      forall i :: 0 <= i < |s| ==> s[i] == start || OnBoard(s[i])
  {
    var pushed := OnBoardOf(FillNeighbours(c));
    var s := rest + pushed;
    forall i | 0 <= i < |s|
      ensures s[i] == start || OnBoard(s[i])
    {
      if i >= |rest| {
        assert s[i] == pushed[i - |rest|];
        assert s[i] in pushed;
      }
    }
  }

  /** floodFill: a stack of cells and a visited set.  Each cell is judged
      once against the original grid; a cell of the start cell's colour
      takes the new colour and pushes its on-board side neighbours.

      `filled` names the cells recoloured.  The result is the grid with
      exactly those cells overwritten; they all had the start cell's
      colour; all of them but the start are on the board; the start is one
      of them; and every on-board side neighbour of a filled cell that has
      the start cell's colour is filled too.  `order` lists the filled
      cells in the order they were recoloured: each once, the start first,
      and each later one a side neighbour of one recoloured before it, so
      the filled region is 4-connected to the start.  When the start cell
      already has the new colour the grid comes back unchanged. */
  method FloodFill(g: Grid, start: Cell, newColor: string)
    returns (out: Grid, ghost filled: set<Cell>, ghost order: seq<Cell>)
    ensures PixelColor(g, start) == Some(newColor) ==> out == g && filled == {}
    ensures PixelColor(g, start) != Some(newColor) ==> start in filled
    ensures forall c :: c in out <==> c in g || c in filled
    ensures forall c :: c in out ==> out[c] == if c in filled then newColor else g[c]
    ensures forall c :: c in filled ==> PixelColor(g, c) == PixelColor(g, start) && (c == start || OnBoard(c))
    ensures forall c, n :: (c in filled && n in FillNeighbours(c) && OnBoard(n)
                            && PixelColor(g, n) == PixelColor(g, start)) ==> n in filled
    ensures forall c :: c in filled <==> c in order
    ensures Linked(start, order)
    ensures |order| > 0 ==> order[0] == start
    ensures forall i, j :: 0 <= i < j < |order| ==> order[i] != order[j]
    ensures forall c :: c in filled ==> exists p :: WalkIn(p, start, c, filled)
  {
    var targetColor := PixelColor(g, start);
    filled := {};
    order := [];
    if targetColor == Some(newColor) {
      return g, filled, order;
    }
    out := g;
    var stack := [start];
    var visited: set<Cell> := {};
    ghost var universe := Board() + {start};
    while |stack| > 0
      invariant FillState(g, start, targetColor, newColor, stack, visited, filled, out)
      invariant FillTrail(start, stack, filled, order)
      decreases universe - visited, |stack|
    {
      var c := stack[|stack| - 1];
      if c in visited {
        PopVisited(g, start, targetColor, newColor, stack, visited, filled, out);
        TrailPop(start, stack, filled, order);
        stack := stack[..|stack| - 1];
        continue;
      }
      if c != start {
        OnBoardInBoard(c);
      }
      var currentColor := PixelColor(g, c);
      if currentColor != targetColor {
        PopOther(g, start, targetColor, newColor, stack, visited, filled, out);
        TrailPop(start, stack, filled, order);
        stack := stack[..|stack| - 1];
        visited := visited + {c};
        continue;
      }
      PopFill(g, start, targetColor, newColor, stack, visited, filled, out);
      TrailFill(start, stack, filled, order);
      stack := stack[..|stack| - 1];
      visited := visited + {c};
      out := out[c := newColor];
      filled := filled + {c};
      order := order + [c];
      stack := PushNeighbours(stack, c);
    }
    FilledConnected(start, filled, order);
    LinkedShape(start, order);
  }
}
