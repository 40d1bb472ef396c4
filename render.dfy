/**
 The text picture of a square window of the lattice: one line per x value,
 largest x first, one glyph per y value, smallest y first, every line ended
 by a newline.
 */
module Render {
  import opened Rules

  const LiveGlyph: char := '⬜'
  const DeadGlyph: char := '⬛'

  function Glyph(live: set<Cell>, c: Cell): char {
    if c in live then LiveGlyph else DeadGlyph
  }

  /** The `rows` lines of `cols` glyphs whose first line is x == top and
      whose first column is y == left. */
  function Grid(live: set<Cell>, top: int, left: int, rows: nat, cols: nat): seq<string> {
    seq(rows, r => seq(cols, c => Glyph(live, (top - r, left + c))))
  }

  /** The lines, each followed by a newline. */
  function Text(lines: seq<string>): string {
    if lines == [] then []
    else Text(lines[..|lines| - 1]) + lines[|lines| - 1] + "\n"
  }

  /** Length of the first line of s: the index of its first newline, or |s|. */
  function LineEnd(s: string): (k: nat)
    ensures k <= |s|
    ensures '\n' !in s[..k]
    ensures k < |s| ==> s[k] == '\n'
  {
    if s == [] || s[0] == '\n' then 0 else 1 + LineEnd(s[1..])
  }

  /** The newline-terminated lines of s (a last line without newline counts). */
  function Lines(s: string): seq<string>
    decreases |s|
  {
    if s == [] then []
    else
      var k := LineEnd(s);
      [s[..k]] + (if k < |s| then Lines(s[k + 1..]) else [])
  }

  lemma {:induction false} TextCons(line: string, lines: seq<string>)
    ensures Text([line] + lines) == line + "\n" + Text(lines)
  {
    if lines != [] {
      var init := lines[..|lines| - 1];
      assert ([line] + lines)[..|lines|] == [line] + init;
      TextCons(line, init);
    } else {
      assert [line] + lines == [line];
      assert Text([line][..0]) == [];
    }
  }

  lemma {:induction false} LineEndOf(line: string, rest: string)
    requires '\n' !in line
    ensures LineEnd(line + "\n" + rest) == |line|
  {
    if line != [] {
      assert (line + "\n" + rest)[1..] == line[1..] + "\n" + rest;
      LineEndOf(line[1..], rest);
    }
  }

  /** Splitting the text at its newlines gives back the lines. */
  lemma {:induction false} LinesOfText(lines: seq<string>)
    requires forall i :: 0 <= i < |lines| ==> '\n' !in lines[i]
    ensures Lines(Text(lines)) == lines
  {
    if lines != [] {
      var rest := lines[1..];
      assert lines == [lines[0]] + rest;
      TextCons(lines[0], rest);
      var s := Text(lines);
      LineEndOf(lines[0], Text(rest));
      assert s[..|lines[0]|] == lines[0];
      assert s[|lines[0]| + 1..] == Text(rest);
      LinesOfText(rest);
    }
  }

  /** Line r of the window: `cols` glyphs, none of them a newline. */
  lemma GridRow(live: set<Cell>, top: int, left: int, rows: nat, cols: nat, r: nat)
    requires r < rows
    ensures |Grid(live, top, left, rows, cols)[r]| == cols
    ensures '\n' !in Grid(live, top, left, rows, cols)[r]
    ensures forall c :: 0 <= c < cols ==> Grid(live, top, left, rows, cols)[r][c] == Glyph(live, (top - r, left + c))
  {
    var row := Grid(live, top, left, rows, cols)[r];
    assert row == seq(cols, c => Glyph(live, (top - r, left + c)));
    forall c | 0 <= c < cols
      ensures row[c] == Glyph(live, (top - r, left + c)) && row[c] != '\n'
    {
      assert row[c] == Glyph(live, (top - r, left + c));
    }
  }

  /** The picture of a window is `rows` lines, each the `cols` glyphs of one
      x value, and splitting the picture at its newlines gives back exactly
      those lines. */
  lemma PictureLines(live: set<Cell>, top: int, left: int, rows: nat, cols: nat)
    ensures Lines(Text(Grid(live, top, left, rows, cols))) == Grid(live, top, left, rows, cols)
    ensures |Grid(live, top, left, rows, cols)| == rows
    ensures forall r, c :: 0 <= r < rows && 0 <= c < cols ==>
      |Grid(live, top, left, rows, cols)[r]| == cols &&
      (Grid(live, top, left, rows, cols)[r][c] == LiveGlyph <==> (top - r, left + c) in live)
  {
    var g := Grid(live, top, left, rows, cols);
    forall r | 0 <= r < rows
      ensures |g[r]| == cols && '\n' !in g[r]
      ensures forall c :: 0 <= c < cols ==> (g[r][c] == LiveGlyph <==> (top - r, left + c) in live)
    {
      GridRow(live, top, left, rows, cols, r);
    }
    LinesOfText(g);
  }

  /** Two boards that agree on every cell of the window draw the same
      picture of it. */
  lemma GridAgrees(a: set<Cell>, b: set<Cell>, top: int, left: int, rows: nat, cols: nat)
    requires forall d: Cell :: top - rows < d.0 <= top && left <= d.1 < left + cols ==> (d in a <==> d in b)
    ensures Grid(a, top, left, rows, cols) == Grid(b, top, left, rows, cols)
  {
    var ga, gb := Grid(a, top, left, rows, cols), Grid(b, top, left, rows, cols);
    forall r | 0 <= r < rows
      ensures ga[r] == gb[r]
    {
      GridRow(a, top, left, rows, cols, r);
      GridRow(b, top, left, rows, cols, r);
      forall c | 0 <= c < cols
        ensures ga[r][c] == gb[r][c]
      {
        var d := (top - r, left + c);
        assert d in a <==> d in b;
      }
    }
  }

  lemma Text2(a: string, b: string)
    ensures Text([a, b]) == a + "\n" + b + "\n"
  {
    assert [a, b][..1] == [a];
    assert [a][..0] == [];
    assert Text([a]) == a + "\n";
  }

  lemma Text3(a: string, b: string, c: string)
    ensures Text([a, b, c]) == a + "\n" + b + "\n" + c + "\n"
  {
    assert [a, b, c][..2] == [a, b];
    Text2(a, b);
  }
}
