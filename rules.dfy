/**
 The rule of Conway's Game of Life on the unbounded integer lattice, stated
 over a finite set of live cells: adjacency, the neighbour ring, the number of
 live neighbours, and the next generation computed from the sparse set of
 candidate cells (live cells and their rings).
 */
module Rules {

  /** A lattice coordinate (x, y). */
  type Cell = (int, int)

  /** a and b are distinct cells at Chebyshev distance 1. */
  predicate Adjacent(a: Cell, b: Cell) {
    a != b && -1 <= a.0 - b.0 <= 1 && -1 <= a.1 - b.1 <= 1
  }

  predicate Distinct(s: seq<Cell>) {
    forall i, j :: 0 <= i < j < |s| ==> s[i] != s[j]
  }

  /** The eight neighbours of (x, y), in the engine's order (east first, then
      counter-clockwise). */
  function Neighbours(x: int, y: int): (ns: seq<Cell>)
    ensures |ns| == 8 && Distinct(ns)
    ensures forall c :: c in ns <==> Adjacent(c, (x, y))
    ensures (x, y) !in ns
  {
    [(x + 1, y), (x + 1, y + 1), (x, y + 1), (x - 1, y + 1),
     (x - 1, y), (x - 1, y - 1), (x, y - 1), (x + 1, y - 1)]
  }

  lemma AdjacentSymmetric(a: Cell, b: Cell)
    ensures Adjacent(a, b) <==> Adjacent(b, a)
  {}

  /** The number of live cells adjacent to p: the reference definition. */
  function NeighbourCount(live: set<Cell>, p: Cell): nat {
    |set c | c in live && Adjacent(c, p)|
  }

  /** 1 for a live cell, 0 for a dead one. */
  function Live(live: set<Cell>, c: Cell): nat {
    if c in live then 1 else 0
  }

  /** The number of entries of `cells` that are live. */
  function CountAlive(live: set<Cell>, cells: seq<Cell>): (n: nat)
    ensures n <= |cells|
  {
    if cells == [] then 0
    else CountAlive(live, cells[..|cells| - 1]) + Live(live, cells[|cells| - 1])
  }

  /** Counting along a duplicate-free list counts the live cells it holds. */
  lemma {:induction false} CountAliveDistinct(live: set<Cell>, s: seq<Cell>)
    requires Distinct(s)
    ensures CountAlive(live, s) == |set c | c in s && c in live|
  {
    if s != [] {
      var init, last := s[..|s| - 1], s[|s| - 1];
      assert Distinct(init);
      CountAliveDistinct(live, init);
      var before := set c | c in init && c in live;
      var after := set c | c in s && c in live;
      assert last !in init;
      assert s == init + [last];
      if last in live {
        assert after == before + {last};
      } else {
        assert after == before;
      }
    }
  }

  /** The reference count is the count along the neighbour ring, so it never
      exceeds 8 and never includes p itself. */
  lemma NeighbourCountByRing(live: set<Cell>, p: Cell)
    ensures NeighbourCount(live, p) == CountAlive(live, Neighbours(p.0, p.1))
    ensures NeighbourCount(live, p) <= 8
  {
    var ns := Neighbours(p.0, p.1);
    CountAliveDistinct(live, ns);
    assert (set c | c in ns && c in live) == (set c | c in live && Adjacent(c, p));
  }

  /** One more entry of a list adds one to the count exactly when it is live. */
  lemma CountAliveStep(live: set<Cell>, s: seq<Cell>, k: nat)
    requires 0 < k <= |s|
    ensures CountAlive(live, s[..k]) == CountAlive(live, s[..k - 1]) + Live(live, s[k - 1])
  {
    assert s[..k][..k - 1] == s[..k - 1];
  }

  /** The count written out cell by cell around (x, y), for concrete boards. */
  lemma NeighbourCountUnrolled(live: set<Cell>, x: int, y: int)
    ensures NeighbourCount(live, (x, y)) ==
      Live(live, (x + 1, y)) + Live(live, (x + 1, y + 1)) + Live(live, (x, y + 1)) + Live(live, (x - 1, y + 1)) +
      Live(live, (x - 1, y)) + Live(live, (x - 1, y - 1)) + Live(live, (x, y - 1)) + Live(live, (x + 1, y - 1))
  {
    var ns := Neighbours(x, y);
    NeighbourCountByRing(live, (x, y));
    assert ns[..0] == [];
    CountAliveStep(live, ns, 1);
    CountAliveStep(live, ns, 2);
    CountAliveStep(live, ns, 3);
    CountAliveStep(live, ns, 4);
    CountAliveStep(live, ns, 5);
    CountAliveStep(live, ns, 6);
    CountAliveStep(live, ns, 7);
    CountAliveStep(live, ns, 8);
    assert ns[..8] == ns;
  }

  /** Whether p is alive or dead does not change its own count. */
  lemma NeighbourCountIgnoresSelf(live: set<Cell>, p: Cell)
    ensures NeighbourCount(live + {p}, p) == NeighbourCount(live - {p}, p)
  {
    assert (set c | c in live + {p} && Adjacent(c, p)) == (set c | c in live - {p} && Adjacent(c, p));
  }

  /** Conway's rule: survival with 2 or 3 live neighbours, birth with exactly 3. */
  predicate AliveNext(live: set<Cell>, c: Cell) {
    var n := NeighbourCount(live, c);
    (c in live && (n == 2 || n == 3)) || (c !in live && n == 3)
  }

  /** The live cells and every cell of their neighbour rings: the only cells
      the sparse step examines. */
  function Candidates(live: set<Cell>): (cs: set<Cell>)
    ensures live <= cs
  {
    live + set p, q | p in live && q in Neighbours(p.0, p.1) :: q
  }

  /** The next generation, computed over the candidate cells only. */
  function NextGeneration(live: set<Cell>): set<Cell> {
    set c | c in Candidates(live) && AliveNext(live, c)
  }

  /** A cell with a live neighbour lies in that neighbour's ring. */
  lemma {:induction false} CountedCellIsCandidate(live: set<Cell>, c: Cell)
    requires NeighbourCount(live, c) > 0
    ensures c in Candidates(live)
    ensures exists p :: p in live && Adjacent(p, c)
  {
    var p :| p in (set d | d in live && Adjacent(d, c));
    AdjacentSymmetric(p, c);
    assert c in Neighbours(p.0, p.1);
  }

  /** The sparse next generation is exactly the dense rule applied to every
      cell of the lattice. */
  lemma NextGenerationIsConway(live: set<Cell>)
    ensures forall c :: c in NextGeneration(live) <==> AliveNext(live, c)
  {
    forall c | AliveNext(live, c)
      ensures c in Candidates(live)
    {
      if c !in live {
        CountedCellIsCandidate(live, c);
      }
    }
  }

  /** Every cell alive in the next generation is alive now or adjacent to a
      cell alive now. */
  lemma NextGenerationIsLocal(live: set<Cell>, c: Cell)
    requires c in NextGeneration(live)
    ensures c in live || exists p :: p in live && Adjacent(p, c)
  {
    if c !in live {
      CountedCellIsCandidate(live, c);
    }
  }

  /** An empty board stays empty. */
  lemma EmptyStaysEmpty()
    ensures NextGeneration({}) == {}
  {
    forall c | c in NextGeneration({})
      ensures false
    {
      NextGenerationIsLocal({}, c);
    }
  }

  /** The membership flip of change_cell_status. */
  function Toggle(live: set<Cell>, c: Cell): (r: set<Cell>)
    ensures c in r <==> c !in live
    ensures forall d :: d != c ==> (d in r <==> d in live)
  {
    if c in live then live - {c} else live + {c}
  }

  /** Toggling the same cell twice restores the board. */
  lemma ToggleTwice(live: set<Cell>, c: Cell)
    ensures Toggle(Toggle(live, c), c) == live
  {}

  /** v lies between a and b inclusive, whichever of the two is larger. */
  predicate Between(v: int, a: int, b: int) {
    (a <= v <= b) || (b <= v <= a)
  }

  /** The pair (a, b) put in increasing order, as the engine swaps reversed
      corners. */
  function Ordered(a: int, b: int): (r: (int, int))
    ensures r.0 <= r.1
    ensures forall v :: r.0 <= v <= r.1 <==> Between(v, a, b)
  {
    if a > b then (b, a) else (a, b)
  }

  /** The number of integers between a and b inclusive, in either order. */
  function Span(a: int, b: int): (n: nat)
    ensures n >= 1
    ensures n == (if a <= b then b - a else a - b) + 1
  {
    Ordered(a, b).1 - Ordered(a, b).0 + 1
  }

  /** The cells of the inclusive rectangle minX..maxX by minY..maxY, empty
      when a minimum exceeds its maximum. */
  function Rect(minX: int, minY: int, maxX: int, maxY: int): set<Cell> {
    set x, y | minX <= x <= maxX && minY <= y <= maxY :: (x, y)
  }

  /** The cells of the rectangle that the draw marks alive. */
  function Drawn(minX: int, minY: int, maxX: int, maxY: int, draw: Cell -> bool): (d: set<Cell>)
    ensures d <= Rect(minX, minY, maxX, maxY)
  {
    set c | c in Rect(minX, minY, maxX, maxY) && draw(c)
  }
}
