/**
 The Game of Life engine: a sparse set of live cells on the unbounded lattice
 and a counter of the steps taken since creation or the last clear.
 */
module Life {
  import opened Rules
  import opened Render

  class GameOfLife {
    /** The live cells; every other cell is dead. */
    var alive: set<Cell>
    /** The number of steps taken since creation or the last clear. */
    var step: nat

    constructor ()
      ensures alive == {} && step == 0
    {
      alive := {};
      step := 0;
    }

    /** Marks alive each cell of the inclusive rectangle for which the draw
        says so; cells already alive stay alive. */
    method RandomizeArea(minX: int, minY: int, maxX: int, maxY: int, draw: Cell -> bool)
      modifies this
      ensures alive == old(alive) + Drawn(minX, minY, maxX, maxY, draw)
      ensures old(alive) <= alive <= old(alive) + Rect(minX, minY, maxX, maxY)
      ensures forall c :: c !in Rect(minX, minY, maxX, maxY) ==> (c in alive <==> c in old(alive))
      ensures step == old(step)
    {
      var x := minX;
      while x <= maxX
        invariant x == minX || minX <= x <= maxX + 1
        invariant step == old(step)
        invariant alive == old(alive) + Drawn(minX, minY, x - 1, maxY, draw)
      {
        var y := minY;
        while y <= maxY
          invariant y == minY || minY <= y <= maxY + 1
          invariant step == old(step)
          invariant alive == old(alive) + Drawn(minX, minY, x - 1, maxY, draw) + Drawn(x, minY, x, y - 1, draw)
        {
          if draw((x, y)) {
            alive := alive + {(x, y)};
          }
          assert Drawn(x, minY, x, y, draw) == Drawn(x, minY, x, y - 1, draw) + (if draw((x, y)) then {(x, y)} else {});
          y := y + 1;
        }
        assert Drawn(x, minY, x, y - 1, draw) == Drawn(x, minY, x, maxY, draw);
        assert Drawn(minX, minY, x, maxY, draw) == Drawn(minX, minY, x - 1, maxY, draw) + Drawn(x, minY, x, maxY, draw);
        x := x + 1;
      }
      assert Drawn(minX, minY, x - 1, maxY, draw) == Drawn(minX, minY, maxX, maxY, draw);
    }

    /** Kills the cell at (x, y) if it is alive, brings it to life otherwise. */
    method ChangeCellStatus(x: int, y: int)
      modifies this
      ensures alive == Toggle(old(alive), (x, y))
      ensures (x, y) in alive <==> (x, y) !in old(alive)
      ensures forall c :: c != (x, y) ==> (c in alive <==> c in old(alive))
      ensures step == old(step)
    {
      if (x, y) in alive {
        alive := alive - {(x, y)};
      } else {
        alive := alive + {(x, y)};
      }
    }

    /** Advances one generation. Only live cells and the cells of their
        neighbour rings are examined. */
    method Step()
      modifies this
      ensures alive == NextGeneration(old(alive))
      ensures forall c :: c in alive <==> AliveNext(old(alive), c)
      ensures step == old(step) + 1
    {
      step := step + 1;
      var next: set<Cell> := {};
      var todo := alive;
      while todo != {}
        invariant alive == old(alive) && step == old(step) + 1
        invariant todo <= alive
        invariant forall c :: c in next ==> AliveNext(alive, c)
        invariant forall c :: c in alive - todo && (NeighbourCount(alive, c) == 2 || NeighbourCount(alive, c) == 3) ==> c in next
        invariant forall p, q :: p in alive - todo && q in Neighbours(p.0, p.1) && NeighbourCount(alive, q) == 3 ==> q in next
        decreases todo
      {
        var cell :| cell in todo;
        ghost var before := next;
        // rules 1 to 3: a live cell survives with 2 or 3 live neighbours
        var count := CountAliveNeighbours(cell.0, cell.1);
        if count == 2 || count == 3 {
          next := next + {cell};
        }
        // rule 4: a cell with exactly 3 live neighbours is alive next
        var ring := Neighbours(cell.0, cell.1);
        for k := 0 to |ring|
          invariant alive == old(alive) && step == old(step) + 1
          invariant before <= next
          invariant count == 2 || count == 3 ==> cell in next
          invariant forall c :: c in next ==> AliveNext(alive, c)
          invariant forall q :: q in ring[..k] && NeighbourCount(alive, q) == 3 ==> q in next
        {
          var n := CountAliveNeighbours(ring[k].0, ring[k].1);
          if n == 3 {
            next := next + {ring[k]};
          }
        }
        assert ring[..|ring|] == ring;
        todo := todo - {cell};
      }
      forall c | AliveNext(alive, c)
        ensures c in next
      {
        if c !in alive {
          CountedCellIsCandidate(alive, c);
          var p :| p in alive && Adjacent(p, c);
          AdjacentSymmetric(p, c);
          assert c in Neighbours(p.0, p.1);
        }
      }
      NextGenerationIsConway(alive);
      assert next == NextGeneration(alive);
      alive := next;
    }

    /** The number of live cells among the eight neighbours of (x, y). */
    method CountAliveNeighbours(x: int, y: int) returns (count: nat)
      ensures count == NeighbourCount(alive, (x, y))
      ensures count <= 8
    {
      count := 0;
      ghost var probed: seq<Cell> := [];
      for i := -1 to 2
        invariant count == CountAlive(alive, probed)
        invariant Distinct(probed)
        invariant forall c :: c in probed <==> ProbedBefore(x, y, i, -1, c)
      {
        for j := -1 to 2
          invariant count == CountAlive(alive, probed)
          invariant Distinct(probed)
          invariant forall c :: c in probed <==> ProbedBefore(x, y, i, j, c)
        {
          if i == 0 && j == 0 {
            continue;
          }
          assert !ProbedBefore(x, y, i, j, (x - i, y - j));
          assert (probed + [(x - i, y - j)])[..|probed|] == probed;
          probed := probed + [(x - i, y - j)];
          if (x - i, y - j) in alive {
            count := count + 1;
          }
        }
      }
      CountAliveDistinct(alive, probed);
      assert (set c | c in probed && c in alive) == (set c | c in alive && Adjacent(c, (x, y)));
      NeighbourCountByRing(alive, (x, y));
    }

    /** The number of live cells. */
    function CountAliveCells(): (n: nat)
      reads this
      ensures n == |alive|
      ensures n == 0 <==> alive == {}
    {
      |alive|
    }

    /** The number of steps taken since creation or the last clear. */
    function GetStepsCount(): (n: nat)
      reads this
      ensures n == step
    {
      step
    }

    /** The text picture of the window with corners (minX, minY) and
        (maxX, maxY), given in either order: a buffer of one line per y value
        and one glyph per x value, where the live cell (x, y) of the window
        lands on line maxX - x, column y - minY. */
    method DataAsStr(minX: int, maxX: int, minY: int, maxY: int) returns (s: string)
      requires FitsBuffer(alive, minX, maxX, minY, maxY)
      ensures s == Text(Grid(DataAsVec((minX, minY, maxX, maxY)),
                             Ordered(minX, maxX).1, Ordered(minY, maxY).0, Span(minY, maxY), Span(minX, maxX)))
      ensures Square(minX, maxX, minY, maxY) ==>
        s == Text(Grid(alive, Ordered(minX, maxX).1, Ordered(minY, maxY).0, Span(minX, maxX), Span(minX, maxX)))
    {
      var loX, hiX := minX, maxX;
      if loX > hiX {
        loX, hiX := hiX, loX;
      }
      var loY, hiY := minY, maxY;
      if loY > hiY {
        loY, hiY := hiY, loY;
      }
      assert (loX, hiX) == Ordered(minX, maxX) && (loY, hiY) == Ordered(minY, maxY);
      var width: nat := hiX - loX + 1;
      var height: nat := hiY - loY + 1;
      // only the cells inside the window are drawn
      var shown := set c | c in alive && loX <= c.0 <= hiX && loY <= c.1 <= hiY;
      assert shown == DataAsVec((minX, minY, maxX, maxY));
      assert Span(minX, maxX) == width && Span(minY, maxY) == height;
      forall d | d in shown
        ensures 0 <= hiX - d.0 < height && 0 <= d.1 - loY < width
      {
        assert Between(d.0, minX, maxX) && Between(d.1, minY, maxY);
      }
      s := DrawCells(shown, hiX, loY, height, width);
      if Square(minX, maxX, minY, maxY) {
        SquareWindowPicture(this, minX, maxX, minY, maxY);
      }
    }

    /** The live cells of the window with corners (area.0, area.1) and
        (area.2, area.3), given in either order, bounds included. */
    function DataAsVec(area: (int, int, int, int)): (r: set<Cell>)
      reads this
      ensures r <= alive
      ensures forall c :: c in r <==> c in alive && Between(c.0, area.0, area.2) && Between(c.1, area.1, area.3)
    {
      var (loX, hiX) := Ordered(area.0, area.2);
      var (loY, hiY) := Ordered(area.1, area.3);
      set c | c in alive && loX <= c.0 <= hiX && loY <= c.1 <= hiY
    }

    /** Kills every cell and resets the step counter. */
    method ClearCells()
      modifies this
      ensures alive == {} && step == 0
    {
      alive := {};
      step := 0;
    }
  }

  /** The picture of `cells` in a buffer of `height` lines by `width`
      glyphs, where the cell (x, y) lands on line top - x, column y - left:
      the buffer is filled blank, the cells are marked, the lines joined. */
  method DrawCells(cells: set<Cell>, top: int, left: int, height: nat, width: nat) returns (s: string)
    requires forall d :: d in cells ==> 0 <= top - d.0 < height && 0 <= d.1 - left < width
    ensures s == Text(Grid(cells, top, left, height, width))
  {
    var output := new char[height, width]((_, _) => DeadGlyph);
    PlotCells(output, cells, top, left);
    ghost var grid := Grid(cells, top, left, height, width);
    forall r | 0 <= r < height
      ensures |grid[r]| == width
    {
      GridRow(cells, top, left, height, width, r);
    }
    forall r, c | 0 <= r < height && 0 <= c < width
      ensures output[r, c] == grid[r][c]
    {
      GridRow(cells, top, left, height, width, r);
    }
    s := JoinLines(output, grid);
  }

  /** Marks with the live glyph every cell of `cells` in a blank
      buffer whose line r shows x == top - r and whose column c shows
      y == left + c. */
  method PlotCells(output: array2<char>, cells: set<Cell>, top: int, left: int)
    requires forall r, c :: 0 <= r < output.Length0 && 0 <= c < output.Length1 ==> output[r, c] == DeadGlyph
    requires forall d :: d in cells ==> 0 <= top - d.0 < output.Length0 && 0 <= d.1 - left < output.Length1
    modifies output
    ensures forall r, c :: 0 <= r < output.Length0 && 0 <= c < output.Length1 ==>
      output[r, c] == Glyph(cells, (top - r, left + c))
  {
    var todo := cells;
    while todo != {}
      invariant todo <= cells
      invariant forall r, c :: 0 <= r < output.Length0 && 0 <= c < output.Length1 ==>
        output[r, c] == Glyph(cells - todo, (top - r, left + c))
      decreases todo
    {
      var cell :| cell in todo;
      // rotate: lines by decreasing x, columns by increasing y
      output[top - cell.0, cell.1 - left] := LiveGlyph;
      todo := todo - {cell};
    }
    assert cells - {} == cells;
  }

  /** The buffer's lines, each followed by a newline. */
  method JoinLines(output: array2<char>, ghost grid: seq<string>) returns (s: string)
    requires |grid| == output.Length0
    requires forall r :: 0 <= r < |grid| ==> |grid[r]| == output.Length1
    requires forall r, c :: 0 <= r < output.Length0 && 0 <= c < output.Length1 ==> output[r, c] == grid[r][c]
    ensures s == Text(grid)
  {
    s := [];
    for r := 0 to output.Length0
      invariant s == Text(grid[..r])
    {
      var line: string := [];
      for c := 0 to output.Length1
        invariant line == grid[r][..c]
      {
        line := line + [output[r, c]];
      }
      assert grid[..r + 1][..r] == grid[..r];
      s := s + line + "\n";
    }
    assert grid[..output.Length0] == grid;
  }

  /** The window query does not depend on which corner is given first. */
  lemma DataAsVecCornerOrder(g: GameOfLife, x0: int, y0: int, x1: int, y1: int)
    ensures g.DataAsVec((x0, y0, x1, y1)) == g.DataAsVec((x1, y1, x0, y0))
    ensures g.DataAsVec((x0, y0, x1, y1)) == g.DataAsVec((x1, y0, x0, y1))
    ensures g.DataAsVec((x0, y0, x1, y1)) == g.DataAsVec((x0, y1, x1, y0))
  {
  }

  /** On a square window the window query draws the same picture as the
      whole board: every cell the picture shows lies inside the window. */
  lemma SquareWindowPicture(g: GameOfLife, minX: int, maxX: int, minY: int, maxY: int)
    requires Square(minX, maxX, minY, maxY)
    ensures Grid(g.DataAsVec((minX, minY, maxX, maxY)), Ordered(minX, maxX).1, Ordered(minY, maxY).0, Span(minY, maxY), Span(minX, maxX))
         == Grid(g.alive, Ordered(minX, maxX).1, Ordered(minY, maxY).0, Span(minX, maxX), Span(minX, maxX))
  {
    var (loX, hiX) := Ordered(minX, maxX);
    var (loY, hiY) := Ordered(minY, maxY);
    var n := Span(minX, maxX);
    var shown := g.DataAsVec((minX, minY, maxX, maxY));
    forall d: Cell | hiX - n < d.0 <= hiX && loY <= d.1 < loY + n
      ensures d in shown <==> d in g.alive
    {
      assert Between(d.0, minX, maxX) && Between(d.1, minY, maxY);
    }
    GridAgrees(shown, g.alive, hiX, loY, n, n);
  }

  /** What the picture of a window shows, whatever its shape: the glyph at
      line r, column c is the live one exactly when line r is within the x
      range, column c within the y range, and (maxX - r, minY + c) is alive.
      Lines past the x range and columns past the y range stay blank. */
  lemma DataAsStrShowsWindow(g: GameOfLife, minX: int, maxX: int, minY: int, maxY: int, r: nat, c: nat)
    requires r < Span(minY, maxY) && c < Span(minX, maxX)
    ensures Grid(g.DataAsVec((minX, minY, maxX, maxY)),
                 Ordered(minX, maxX).1, Ordered(minY, maxY).0, Span(minY, maxY), Span(minX, maxX))[r][c] == LiveGlyph
            <==> r < Span(minX, maxX) && c < Span(minY, maxY) && (Ordered(minX, maxX).1 - r, Ordered(minY, maxY).0 + c) in g.alive
  {
    var (loX, hiX) := Ordered(minX, maxX);
    var (loY, hiY) := Ordered(minY, maxY);
    var shown := g.DataAsVec((minX, minY, maxX, maxY));
    GridRow(shown, hiX, loY, Span(minY, maxY), Span(minX, maxX), r);
    var cell := (hiX - r, loY + c);
    assert cell in shown <==> cell in g.alive && Between(cell.0, minX, maxX) && Between(cell.1, minY, maxY);
  }

  /** (x - i, y - j) has been examined once the offsets before (i, j), in the
      order of the two nested loops, are done; the centre offset is skipped. */
  ghost predicate ProbedBefore(x: int, y: int, i: int, j: int, c: Cell) {
    var a, b := x - c.0, y - c.1;
    -1 <= a <= 1 && -1 <= b <= 1 && !(a == 0 && b == 0) && (a < i || (a == i && b < j))
  }

  /** The window has as many x values as y values. */
  predicate Square(minX: int, maxX: int, minY: int, maxY: int) {
    Span(minX, maxX) == Span(minY, maxY)
  }

  /** Every live cell (x, y) of the window lands inside the buffer of
      Span(minY, maxY) lines by Span(minX, maxX) glyphs: its line maxX - x
      and its column y - minY are in range. Always true of a square window. */
  predicate FitsBuffer(live: set<Cell>, minX: int, maxX: int, minY: int, maxY: int) {
    forall d :: d in live && Between(d.0, minX, maxX) && Between(d.1, minY, maxY) ==>
      Ordered(minX, maxX).1 - d.0 < Span(minY, maxY) && d.1 - Ordered(minY, maxY).0 < Span(minX, maxX)
  }

  /** A square window never writes outside the buffer. */
  lemma SquareFitsBuffer(live: set<Cell>, minX: int, maxX: int, minY: int, maxY: int)
    requires Square(minX, maxX, minY, maxY)
    ensures FitsBuffer(live, minX, maxX, minY, maxY)
  {
  }
}
