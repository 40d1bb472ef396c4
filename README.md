# Game of Life engine — a verified model

This project models the `GameOfLife` engine of a small Conway's Game of Life
program. The engine keeps a sparse set of live cells on the unbounded integer
lattice and a counter of the generations stepped since creation or the last
clear. Its operations:

- toggle one cell;
- seed a rectangle at random;
- count the live neighbours of a cell;
- step one generation, visiting only live cells and their eight-cell rings;
- query the live cells of a window;
- draw a window as rows of glyphs;
- clear the board and read the two counters.

Modules:

- `Rules` (`rules.dfy`) holds the pure rule of the game:
  - adjacency and the neighbour ring `Neighbours` (the engine's `get_neighbors`, in its order);
  - the reference neighbour count `NeighbourCount`, the number of live cells at Chebyshev distance 1;
  - the dense Conway rule `AliveNext`;
  - the sparse next generation `NextGeneration`, computed over live cells and their rings only;
  - the toggle, corner ordering and rectangle sets used by the engine.

  Its main lemma, `NextGenerationIsConway`, proves that the sparse generation is exactly the dense rule applied to every cell of the lattice.
- `Render` (`render.dfy`) holds the text picture of a window. Line r of the picture shows x == top - r and column c shows y == left + c. Every line is ended by a newline. It also proves that splitting the picture at its newlines gives back the lines.
- `Life` (`game_of_life.dfy`) is the class `GameOfLife`, with fields `alive: set<Cell>` and `step: nat` updated in place by its methods. Each method is proved against the functions of `Rules` and `Render`:
  - `Step` loops over the live cells as the source does, using a `:|` pick;
  - `CountAliveNeighbours` runs the source's nested offset loops;
  - `DataAsStr` fills a two-dimensional `char` buffer of one line per y value and one glyph per x value, then joins its lines.
- `LifeTests` (`game_of_life_tests.dfy`) replays the engine's unit tests as client code of the class. Each test's expected counts and pictures are proved from the class contracts and the rule lemmas.

## Model

| member | source | states |
|---|---|---|
| Rules.Neighbours | src/model/game_of_life.rs:99-110 | the ring is eight distinct cells, exactly those adjacent to (x, y), and never (x, y) itself |
| Rules.NeighbourCountByRing | src/model/game_of_life.rs:76-89 | the number of live cells adjacent to p equals the live count along the eight-cell ring, and is at most 8 |
| Rules.NeighbourCountUnrolled | src/model/game_of_life.rs:99-110 | the neighbour count is the sum of eight 0/1 terms, one per ring cell in the engine's order |
| Rules.NeighbourCountIgnoresSelf | src/model/game_of_life.rs:80-82 | whether p itself is alive or dead does not change p's neighbour count (the centre offset is skipped) |
| Rules.CountAliveDistinct | src/model/game_of_life.rs:76-89 | counting live entries along a list without repeats gives the number of live cells the list holds |
| Rules.NextGenerationIsConway | src/model/game_of_life.rs:51-73 | a cell is in the sparse next generation iff it is alive with 2 or 3 live neighbours or dead with exactly 3 |
| Rules.NextGenerationIsLocal | src/model/game_of_life.rs:63-69 | every cell alive in the next generation is alive now or adjacent to a cell alive now |
| Rules.EmptyStaysEmpty | src/model/game_of_life.rs:51-73 | stepping an empty board gives an empty board |
| Rules.Toggle | src/model/game_of_life.rs:37-46 | the toggled cell's membership flips and every other cell keeps its membership |
| Rules.ToggleTwice | src/model/game_of_life.rs:37-46 | toggling the same cell twice restores the board |
| Rules.Ordered | src/model/game_of_life.rs:121-130 | the corner pair after the swap is in increasing order and spans exactly the values between the two given bounds |
| Rules.Drawn | src/model/game_of_life.rs:26-32 | the cells the draw marks are a subset of the inclusive rectangle |
| Render.LinesOfText | src/model/game_of_life.rs:151-154 | joining newline-free lines, each followed by a newline, and splitting at newlines gives back the lines |
| Render.PictureLines | src/model/game_of_life.rs:137-155 | a window picture of `rows` lines by `cols` glyphs has exactly that shape, the glyph is the live one iff the cell is alive, and it splits back into its lines |
| Life.GameOfLife.constructor | src/model/game_of_life.rs:13-18 | a new engine has no live cell and step counter 0 |
| Life.GameOfLife.RandomizeArea | src/model/game_of_life.rs:23-33 | the new board is the old one plus the drawn cells of the rectangle: only adds, stays within old board plus rectangle, leaves cells outside the rectangle and the counter unchanged |
| Life.GameOfLife.ChangeCellStatus | src/model/game_of_life.rs:37-46 | the board becomes the toggle of the old board at (x, y): that cell flips, no other cell changes, the counter is unchanged |
| Life.GameOfLife.Step | src/model/game_of_life.rs:51-73 | the new board is the sparse next generation of the old one, so a cell is alive iff the Conway rule says so; the counter grows by exactly 1 |
| Life.GameOfLife.CountAliveNeighbours | src/model/game_of_life.rs:76-89 | the count equals the number of live cells adjacent to (x, y), and is at most 8 |
| Life.GameOfLife.CountAliveCells | src/model/game_of_life.rs:91-93 | the result is the number of live cells, and is 0 exactly when the board is empty |
| Life.GameOfLife.GetStepsCount | src/model/game_of_life.rs:95-97 | the result is the step counter; as a function it changes nothing |
| Life.GameOfLife.DataAsStr | src/model/game_of_life.rs:114-156 | with reversed corners swapped first, and whenever every live cell of the window lands inside the buffer: the result is the buffer of (max_y - min_y + 1) lines by (max_x - min_x + 1) glyphs in which line r, column c is live iff (max_x - r, min_y + c) is in the window query; on a square window that is the picture of the board itself |
| Life.GameOfLife.DataAsVec | src/model/game_of_life.rs:159-179 | the result is exactly the live cells whose x and y lie between the given bounds, in either order; it is a subset of the board and changes nothing |
| Life.GameOfLife.ClearCells | src/model/game_of_life.rs:182-185 | the board becomes empty and the step counter 0 |
| Life.DrawCells | src/model/game_of_life.rs:137-155 | a blank buffer of `height` lines by `width` glyphs, with the given cells marked and the lines joined, is the text of the cells' picture of that shape |
| Life.PlotCells | src/model/game_of_life.rs:140-149 | after the marking loop, a buffer position holds the live glyph exactly when its rotated cell is among the filtered cells |
| Life.JoinLines | src/model/game_of_life.rs:151-154 | the output is every buffer line followed by a newline, in order |
| Life.DataAsVecCornerOrder | src/model/game_of_life.rs:159-179 | the window query gives the same cells whichever corner, or which bound of either axis, is given first |
| Life.DataAsStrShowsWindow | src/model/game_of_life.rs:140-149 | in the picture of any window, the glyph at line r, column c is live iff r is within the x range, c within the y range and (max_x - r, min_y + c) is alive; lines and columns past those ranges stay blank |
| Life.SquareWindowPicture | src/model/game_of_life.rs:137-149 | on a square window, the picture of the window query equals the picture of the whole board |
| Life.SquareFitsBuffer | src/model/game_of_life.rs:137-148 | on a square window every live cell of the window lands inside the buffer, so the source never panics there |
| Rules.Span | src/model/game_of_life.rs:134-135 | the number of integers between the two bounds, in either order, is their distance plus one and at least 1 |
| LifeTests.CheckCountAliveNeighbours | src/model/game_of_life.rs:205-222 | the counts around (0, 0) along the test's toggles are 0, 0, 1, 1 and 8 |
| LifeTests.TestRule1 | src/model/game_of_life.rs:225-236 | a lone cell and a pair both die; the four pictures are the test's strings |
| LifeTests.LoneCellDies | src/model/game_of_life.rs:227-230 | the next generation of a single cell is empty |
| LifeTests.PairDies | src/model/game_of_life.rs:231-235 | the next generation of two adjacent cells is empty |
| LifeTests.TestRule2 | src/model/game_of_life.rs:239-251 | a horizontal blinker draws as the test's picture before the step and turns vertical after it |
| LifeTests.BlinkerTurns | src/model/game_of_life.rs:247-250 | in the 3 by 3 window, the blinker's next generation is exactly the column y == 0 |
| LifeTests.TestRule3 | src/model/game_of_life.rs:254-266 | the plus shape draws as the test's picture; after the step the centre is dead and the eight others alive |
| LifeTests.PlusBecomesRing | src/model/game_of_life.rs:262-265 | in the 3 by 3 window, the plus shape's next generation is every cell except the centre |
| LifeTests.TestRule4 | src/model/game_of_life.rs:269-280 | the L of three cells draws as the test's picture and becomes a full 2 by 2 block |
| LifeTests.LBecomesBlock | src/model/game_of_life.rs:276-279 | every cell of the 2 by 2 window is alive in the L's next generation |
| LifeTests.NonSquareWindow | src/model/game_of_life.rs:114-156 | the window (0, 2, 0, 0), one line by three glyphs, draws as "⬛⬛⬛\n" on an empty board and as "⬜⬛⬛\n" on the board {(2, 0)} |

## Left out

- Fixed-width integers: coordinates are `int` and the counter is `nat`. The wrap-around or panic of `i32` arithmetic near the type's bounds (`x ± 1`, `max_x - min_x + 1`) and of the `u32` step counter is not modelled.
- The random draw of `randomize_area` (the `rand` generator, with probability 0.2 per cell) is replaced by an arbitrary oracle `draw` passed to the method. The model proves what holds for every draw.
- Life.GameOfLife.RandomizeArea: follows the code, which does not swap reversed corners. A reversed range is an empty loop and adds nothing.
- Life.GameOfLife.DataAsStr: requires `FitsBuffer`, that every live cell of the window lands inside the buffer. The source allocates `height` lines (one per y value) of `width` glyphs (one per x value), then writes each live cell of the window at line max_x - x, column y - min_y. When a cell lands outside that buffer, which can only happen on a window that is not square, the source panics; the panic is not modelled. Every other window, square or not, is modelled.
- The `Display` implementation (`src/model/game_of_life.rs:188-197`) is not modelled. It is the picture of the window (1, 3, 1, 3) followed by the decimal counters, a formatting wrapper over `DataAsStr`.
- Iteration order: the source visits its hash set in an unspecified order. The model picks cells with `:|`, so every order is covered. The set the step builds does not depend on the order.
- `src/view/screen.rs` (drawing and keyboard handling) and `src/main.rs` (terminal loop) are not part of this model. `main.rs` calls operations that this engine does not have.
- Concurrency: the engine has no threads, locks or shared handles, so there is nothing concurrent to model.
