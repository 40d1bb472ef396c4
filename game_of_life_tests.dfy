/**
 The engine's unit tests, written as client code of the GameOfLife class:
 each method replays one test and its postcondition is the test's expected
 output, proved from the contracts of the class alone.
 */
module LifeTests {
  import opened Rules
  import opened Render
  import opened Life

  /** The picture of a 3 by 3 window, glyph by glyph. */
  lemma Picture3(live: set<Cell>, top: int, left: int)
    ensures Text(Grid(live, top, left, 3, 3)) ==
      [Glyph(live, (top, left)), Glyph(live, (top, left + 1)), Glyph(live, (top, left + 2)), '\n',
       Glyph(live, (top - 1, left)), Glyph(live, (top - 1, left + 1)), Glyph(live, (top - 1, left + 2)), '\n',
       Glyph(live, (top - 2, left)), Glyph(live, (top - 2, left + 1)), Glyph(live, (top - 2, left + 2)), '\n']
  {
    var g := Grid(live, top, left, 3, 3);
    assert g[0] == [Glyph(live, (top, left)), Glyph(live, (top, left + 1)), Glyph(live, (top, left + 2))];
    assert g[1] == [Glyph(live, (top - 1, left)), Glyph(live, (top - 1, left + 1)), Glyph(live, (top - 1, left + 2))];
    assert g[2] == [Glyph(live, (top - 2, left)), Glyph(live, (top - 2, left + 1)), Glyph(live, (top - 2, left + 2))];
    assert g == [g[0], g[1], g[2]];
    Text3(g[0], g[1], g[2]);
  }

  /** The picture of a 2 by 2 window, glyph by glyph. */
  lemma Picture2(live: set<Cell>, top: int, left: int)
    ensures Text(Grid(live, top, left, 2, 2)) ==
      [Glyph(live, (top, left)), Glyph(live, (top, left + 1)), '\n',
       Glyph(live, (top - 1, left)), Glyph(live, (top - 1, left + 1)), '\n']
  {
    var g := Grid(live, top, left, 2, 2);
    assert g[0] == [Glyph(live, (top, left)), Glyph(live, (top, left + 1))];
    assert g[1] == [Glyph(live, (top - 1, left)), Glyph(live, (top - 1, left + 1))];
    assert g == [g[0], g[1]];
    Text2(g[0], g[1]);
  }

  /** data_as_str on a square window given with its corners in order: the
      picture of the board itself, since every live cell of the window fits. */
  method ShowSquare(gol: GameOfLife, minX: int, maxX: int, minY: int, maxY: int) returns (s: string)
    requires minX <= maxX && minY <= maxY && maxX - minX == maxY - minY
    ensures s == Text(Grid(gol.alive, maxX, minY, maxX - minX + 1, maxX - minX + 1))
  {
    SquareFitsBuffer(gol.alive, minX, maxX, minY, maxY);
    s := gol.DataAsStr(minX, maxX, minY, maxY);
  }

  /** The counts of check_count_alive_neighbours: 0 on an empty board, still
      0 with only the centre alive, 1 with one neighbour, 1 with a live cell
      two columns away, 8 with the whole ring alive. */
  method CheckCountAliveNeighbours() returns (counts: seq<nat>)
    ensures counts == [0, 0, 1, 1, 8]
  {
    var gol := new GameOfLife();
    var n0 := CountAtOrigin(gol, {});
    gol.ChangeCellStatus(0, 0);
    var n1 := CountAtOrigin(gol, {(0, 0)});
    gol.ChangeCellStatus(1, 0);
    var n2 := CountAtOrigin(gol, {(0, 0), (1, 0)});
    gol.ChangeCellStatus(2, 0);
    var n3 := CountAtOrigin(gol, {(0, 0), (1, 0), (2, 0)});
    FillRing(gol);
    var n4 := CountAtOrigin(gol, FullRing());
    counts := [n0, n1, n2, n3, n4];
  }

  /** count_alive_neighbours(0, 0) on a board known to be `board`, written
      out cell by cell. */
  method CountAtOrigin(gol: GameOfLife, ghost board: set<Cell>) returns (n: nat)
    requires gol.alive == board
    ensures n == Live(board, (1, 0)) + Live(board, (1, 1)) + Live(board, (0, 1)) + Live(board, (-1, 1)) +
                 Live(board, (-1, 0)) + Live(board, (-1, -1)) + Live(board, (0, -1)) + Live(board, (1, -1))
  {
    n := gol.CountAliveNeighbours(0, 0);
    NeighbourCountUnrolled(board, 0, 0);
  }

  /** The remaining seven toggles of check_count_alive_neighbours. */
  method FillRing(gol: GameOfLife)
    requires gol.alive == {(0, 0), (1, 0), (2, 0)}
    modifies gol
    ensures gol.alive == FullRing()
  {
    gol.ChangeCellStatus(1, 1);
    gol.ChangeCellStatus(0, 1);
    gol.ChangeCellStatus(-1, 1);
    gol.ChangeCellStatus(-1, 0);
    gol.ChangeCellStatus(-1, -1);
    gol.ChangeCellStatus(0, -1);
    gol.ChangeCellStatus(1, -1);
  }

  function FullRing(): set<Cell> {
    {(0, 0), (1, 0), (2, 0), (1, 1), (0, 1), (-1, 1), (-1, 0), (-1, -1), (0, -1), (1, -1)}
  }

  /** test_rule1: a lone cell dies, and so does a pair. */
  method TestRule1() returns (pictures: seq<string>)
    ensures pictures == ["⬛⬛⬛\n⬛⬜⬛\n⬛⬛⬛\n", "⬛⬛⬛\n⬛⬛⬛\n⬛⬛⬛\n",
                         "⬛⬛⬛\n⬛⬜⬜\n⬛⬛⬛\n", "⬛⬛⬛\n⬛⬛⬛\n⬛⬛⬛\n"]
  {
    var gol := new GameOfLife();
    var p0, p1 := LoneCellRound(gol);
    var p2, p3 := PairRound(gol);
    pictures := [p0, p1, p2, p3];
  }

  /** First half of test_rule1, on an empty board. */
  method LoneCellRound(gol: GameOfLife) returns (before: string, after: string)
    requires gol.alive == {}
    modifies gol
    ensures gol.alive == {}
    ensures before == "⬛⬛⬛\n⬛⬜⬛\n⬛⬛⬛\n"
    ensures after == "⬛⬛⬛\n⬛⬛⬛\n⬛⬛⬛\n"
  {
    gol.ChangeCellStatus(0, 0);
    assert gol.alive == {(0, 0)};
    before := ShowSquare(gol, -1, 1, -1, 1);
    assert before == "⬛⬛⬛\n⬛⬜⬛\n⬛⬛⬛\n" by { Picture3({(0, 0)}, 1, -1); }
    gol.Step();
    assert gol.alive == {} by { LoneCellDies(); }
    after := ShowBlank(gol);
  }

  /** Second half of test_rule1, on an empty board. */
  method PairRound(gol: GameOfLife) returns (before: string, after: string)
    requires gol.alive == {}
    modifies gol
    ensures before == "⬛⬛⬛\n⬛⬜⬜\n⬛⬛⬛\n"
    ensures after == "⬛⬛⬛\n⬛⬛⬛\n⬛⬛⬛\n"
  {
    gol.ChangeCellStatus(0, 0);
    gol.ChangeCellStatus(0, 1);
    assert gol.alive == {(0, 0), (0, 1)};
    before := ShowPair(gol);
    gol.Step();
    assert gol.alive == {} by { PairDies(); }
    after := ShowBlank(gol);
  }

  /** data_as_str(-1, 1, -1, 1) on the board of the pair. */
  method ShowPair(gol: GameOfLife) returns (s: string)
    requires gol.alive == {(0, 0), (0, 1)}
    ensures s == "⬛⬛⬛\n⬛⬜⬜\n⬛⬛⬛\n"
  {
    s := ShowSquare(gol, -1, 1, -1, 1);
    Picture3({(0, 0), (0, 1)}, 1, -1);
  }

  /** data_as_str(-1, 1, -1, 1) on an empty board. */
  method ShowBlank(gol: GameOfLife) returns (s: string)
    requires gol.alive == {}
    ensures s == "⬛⬛⬛\n⬛⬛⬛\n⬛⬛⬛\n"
  {
    s := ShowSquare(gol, -1, 1, -1, 1);
    Picture3({}, 1, -1);
  }

  /** test_rule2: a horizontal blinker turns vertical; its centre survives. */
  method TestRule2() returns (before: string, after: string)
    ensures before == "⬛⬛⬛\n⬜⬜⬜\n⬛⬛⬛\n"
    ensures after == "⬛⬜⬛\n⬛⬜⬛\n⬛⬜⬛\n"
  {
    var gol := new GameOfLife();
    gol.ChangeCellStatus(0, 0);
    gol.ChangeCellStatus(0, 1);
    gol.ChangeCellStatus(0, -1);
    assert gol.alive == {(0, 0), (0, 1), (0, -1)};
    before := ShowSquare(gol, -1, 1, -1, 1);
    assert before == "⬛⬛⬛\n⬜⬜⬜\n⬛⬛⬛\n" by { Picture3({(0, 0), (0, 1), (0, -1)}, 1, -1); }
    gol.Step();
    after := ShowSquare(gol, -1, 1, -1, 1);
    assert after == "⬛⬜⬛\n⬛⬜⬛\n⬛⬜⬛\n" by { BlinkerPicture(); }
  }

  /** test_rule3: in a plus shape the overcrowded centre dies and the corners
      are born. */
  method TestRule3() returns (before: string, after: string)
    ensures before == "⬛⬜⬛\n⬜⬜⬜\n⬛⬜⬛\n"
    ensures after == "⬜⬜⬜\n⬜⬛⬜\n⬜⬜⬜\n"
  {
    var gol := PlusShape();
    before := ShowSquare(gol, 1, 3, 1, 3);
    assert before == "⬛⬜⬛\n⬜⬜⬜\n⬛⬜⬛\n" by { Picture3({(2, 2), (1, 2), (2, 1), (3, 2), (2, 3)}, 3, 1); }
    gol.Step();
    after := ShowSquare(gol, 1, 3, 1, 3);
    assert after == "⬜⬜⬜\n⬜⬛⬜\n⬜⬜⬜\n" by { PlusPicture(); }
  }

  /** The board of test_rule3, built by toggling its five cells. */
  method PlusShape() returns (gol: GameOfLife)
    ensures fresh(gol) && gol.alive == {(2, 2), (1, 2), (2, 1), (3, 2), (2, 3)}
  {
    gol := new GameOfLife();
    gol.ChangeCellStatus(2, 2);
    gol.ChangeCellStatus(1, 2);
    gol.ChangeCellStatus(2, 1);
    gol.ChangeCellStatus(3, 2);
    gol.ChangeCellStatus(2, 3);
  }

  /** A window one line high and three glyphs wide is drawn too, as long as
      its live cells land inside the buffer: blank on an empty board, and
      the cell (2, 0) on the first glyph. */
  method NonSquareWindow() returns (blank: string, one: string)
    ensures blank == "⬛⬛⬛\n"
    ensures one == "⬜⬛⬛\n"
  {
    var gol := new GameOfLife();
    blank := ShowStrip(gol);
    assert blank == "⬛⬛⬛\n" by { Picture1x3({}, 2, 0); }
    gol.ChangeCellStatus(2, 0);
    assert gol.alive == {(2, 0)};
    one := ShowStrip(gol);
    assert one == "⬜⬛⬛\n" by { Picture1x3({(2, 0)}, 2, 0); }
  }

  /** data_as_str(0, 2, 0, 0): a buffer of one line (one y value) by three
      glyphs (three x values); the line shows x == 2 and its glyphs y == 0,
      1, 2. The board may hold only (2, 0), the one cell of the window that
      lands inside that buffer. */
  method ShowStrip(gol: GameOfLife) returns (s: string)
    requires gol.alive <= {(2, 0)}
    ensures s == Text(Grid(gol.alive, 2, 0, 1, 3))
  {
    assert FitsBuffer(gol.alive, 0, 2, 0, 0);
    s := gol.DataAsStr(0, 2, 0, 0);
    assert gol.DataAsVec((0, 0, 2, 0)) == gol.alive;
  }

  /** The picture of a window of one line of three glyphs. */
  lemma Picture1x3(live: set<Cell>, top: int, left: int)
    ensures Text(Grid(live, top, left, 1, 3)) ==
      [Glyph(live, (top, left)), Glyph(live, (top, left + 1)), Glyph(live, (top, left + 2)), '\n']
  {
    var g := Grid(live, top, left, 1, 3);
    assert g[0] == [Glyph(live, (top, left)), Glyph(live, (top, left + 1)), Glyph(live, (top, left + 2))];
    assert g == [g[0]];
    assert g[..0] == [];
  }

  /** test_rule4: an L of three cells becomes a block. */
  method TestRule4() returns (before: string, after: string)
    ensures before == "⬜⬛\n⬜⬜\n"
    ensures after == "⬜⬜\n⬜⬜\n"
  {
    var gol := new GameOfLife();
    gol.ChangeCellStatus(1, 1);
    gol.ChangeCellStatus(1, 2);
    gol.ChangeCellStatus(2, 1);
    assert gol.alive == {(1, 1), (1, 2), (2, 1)};
    before := ShowSquare(gol, 1, 2, 1, 2);
    assert before == "⬜⬛\n⬜⬜\n" by { Picture2({(1, 1), (1, 2), (2, 1)}, 2, 1); }
    gol.Step();
    after := ShowSquare(gol, 1, 2, 1, 2);
    assert after == "⬜⬜\n⬜⬜\n" by { LPicture(); }
  }

  lemma BlinkerPicture()
    ensures Text(Grid(NextGeneration({(0, 0), (0, 1), (0, -1)}), 1, -1, 3, 3)) == "⬛⬜⬛\n⬛⬜⬛\n⬛⬜⬛\n"
  {
    BlinkerTurns();
    Picture3(NextGeneration({(0, 0), (0, 1), (0, -1)}), 1, -1);
  }

  lemma PlusPicture()
    ensures Text(Grid(NextGeneration({(2, 2), (1, 2), (2, 1), (3, 2), (2, 3)}), 3, 1, 3, 3)) == "⬜⬜⬜\n⬜⬛⬜\n⬜⬜⬜\n"
  {
    PlusBecomesRing();
    Picture3(NextGeneration({(2, 2), (1, 2), (2, 1), (3, 2), (2, 3)}), 3, 1);
  }

  lemma LPicture()
    ensures Text(Grid(NextGeneration({(1, 1), (1, 2), (2, 1)}), 2, 1, 2, 2)) == "⬜⬜\n⬜⬜\n"
  {
    LBecomesBlock();
    Picture2(NextGeneration({(1, 1), (1, 2), (2, 1)}), 2, 1);
  }

  lemma LoneCellDies()
    ensures NextGeneration({(0, 0)}) == {}
  {
    var live := {(0, 0)};
    NextGenerationIsConway(live);
    forall c | c in NextGeneration(live)
      ensures false
    {
      NextGenerationIsLocal(live, c);
      NeighbourCountUnrolled(live, c.0, c.1);
    }
  }

  lemma PairDies()
    ensures NextGeneration({(0, 0), (0, 1)}) == {}
  {
    var live := {(0, 0), (0, 1)};
    NextGenerationIsConway(live);
    forall c | c in NextGeneration(live)
      ensures false
    {
      NeighbourCountUnrolled(live, c.0, c.1);
    }
  }

  lemma BlinkerTurns()
    ensures var next := NextGeneration({(0, 0), (0, 1), (0, -1)});
      forall x, y :: -1 <= x <= 1 && -1 <= y <= 1 ==> ((x, y) in next <==> y == 0)
  {
    var live := {(0, 0), (0, 1), (0, -1)};
    NextGenerationIsConway(live);
    forall x, y | -1 <= x <= 1 && -1 <= y <= 1
      ensures (x, y) in NextGeneration(live) <==> y == 0
    {
      NeighbourCountUnrolled(live, x, y);
    }
  }

  lemma PlusBecomesRing()
    ensures var next := NextGeneration({(2, 2), (1, 2), (2, 1), (3, 2), (2, 3)});
      forall x, y :: 1 <= x <= 3 && 1 <= y <= 3 ==> ((x, y) in next <==> (x, y) != (2, 2))
  {
    var live := {(2, 2), (1, 2), (2, 1), (3, 2), (2, 3)};
    NextGenerationIsConway(live);
    forall x, y | 1 <= x <= 3 && 1 <= y <= 3
      ensures (x, y) in NextGeneration(live) <==> (x, y) != (2, 2)
    {
      NeighbourCountUnrolled(live, x, y);
    }
  }

  lemma LBecomesBlock()
    ensures var next := NextGeneration({(1, 1), (1, 2), (2, 1)});
      forall x, y :: 1 <= x <= 2 && 1 <= y <= 2 ==> (x, y) in next
  {
    var live := {(1, 1), (1, 2), (2, 1)};
    NextGenerationIsConway(live);
    forall x, y | 1 <= x <= 2 && 1 <= y <= 2
      ensures (x, y) in NextGeneration(live)
    {
      NeighbourCountUnrolled(live, x, y);
    }
  }
}
