/**
 * Hexagon neighbours over odd-q offset coordinates (`get_neighbors`, identical in
 * honeycomb/hexagon_grid.py and backend/utils.py).
 *
 * A cell (row, col) is turned into cube coordinates, the six unit cube directions are
 * added, every result is turned back into offset coordinates, and cells with a negative
 * row or column are dropped.
 *
 * Python's `col & 1` is `col % 2` for every int (two's complement), which is Dafny's
 * Euclidean `%`. The numerators of `(col - (col & 1)) // 2` are even, so Python's
 * floor division and Dafny's Euclidean `/` agree on them.
 */
module HexNeighbors {

  /** Offset coordinates of a lattice cell. */
  datatype Cell = Cell(row: int, col: int)

  /** Cube coordinates; a lattice point satisfies q + r + s == 0. */
  datatype Cube = Cube(q: int, r: int, s: int)

  predicate NonNegative(c: Cell) {
    c.row >= 0 && c.col >= 0
  }

  /** `q = col, r = row - (col - (col & 1)) // 2, s = -q - r` */
  function OffsetToCube(c: Cell): (h: Cube)
    ensures h.q + h.r + h.s == 0
  {
    var q := c.col;
    var r := c.row - (c.col - c.col % 2) / 2;
    Cube(q, r, -q - r)
  }

  /** `ncol = nq, nrow = nr + (nq - (nq & 1)) // 2` (the s coordinate is not used). */
  function CubeToOffset(h: Cube): Cell {
    Cell(h.r + (h.q - h.q % 2) / 2, h.q)
  }

  /** The six unit steps, in the order of the source's `directions` list. */
  const Directions: seq<Cube> := [
    Cube(1, -1, 0), Cube(1, 0, -1), Cube(0, 1, -1),
    Cube(-1, 1, 0), Cube(-1, 0, 1), Cube(0, -1, 1)
  ]

  function Add(h: Cube, d: Cube): Cube {
    Cube(h.q + d.q, h.r + d.r, h.s + d.s)
  }

  function Negate(d: Cube): Cube {
    Cube(-d.q, -d.r, -d.s)
  }

  /** The neighbour reached from `c` along direction `d`. */
  function Step(c: Cell, d: Cube): Cell {
    CubeToOffset(Add(OffsetToCube(c), d))
  }

  /** The six candidates, before negative coordinates are dropped (the list `neighbors`). */
  function Candidates(c: Cell): (cs: seq<Cell>)
    ensures |cs| == 6
  {
    seq(6, k requires 0 <= k < 6 => Step(c, Directions[k]))
  }

  /** The comprehension `[(r, c) for r, c in neighbors if r >= 0 and c >= 0]`. */
  function KeepNonNegative(cs: seq<Cell>): (r: seq<Cell>)
    ensures |r| <= |cs|
    ensures forall x :: x in r <==> x in cs && NonNegative(x)
  {
    if cs == [] then []
    else if NonNegative(cs[0]) then [cs[0]] + KeepNonNegative(cs[1..])
    else KeepNonNegative(cs[1..])
  }

  /** `get_neighbors(row, col)` */
  function Neighbors(c: Cell): (r: seq<Cell>) {
    KeepNonNegative(Candidates(c))
  }

  /** The loop of `get_neighbors`, appending one candidate per direction, then the filter. */
  method GetNeighbors(c: Cell) returns (result: seq<Cell>)
    ensures result == Neighbors(c)
  {
    var h := OffsetToCube(c);
    var candidates: seq<Cell> := [];
    for k := 0 to |Directions|
      invariant candidates == Candidates(c)[..k]
    {
      var d := Directions[k];
      var n := Cube(h.q + d.q, h.r + d.r, h.s + d.s);
      candidates := candidates + [Cell(n.r + (n.q - n.q % 2) / 2, n.q)];
    }
    assert candidates == Candidates(c);
    result := KeepNonNegative(candidates);
  }

  // ---------------------------------------------------------------------------
  // Cube/offset conversion

  /** Offset to cube and back is the identity. */
  lemma OffsetCubeRoundTrip(c: Cell)
    ensures CubeToOffset(OffsetToCube(c)) == c
  {
  }

  /** Cube to offset and back is the identity on lattice points (q + r + s == 0). */
  lemma CubeOffsetRoundTrip(h: Cube)
    requires h.q + h.r + h.s == 0
    ensures OffsetToCube(CubeToOffset(h)) == h
  {
  }

  /** Every direction stays on the q + r + s == 0 plane and is a unit step. */
  lemma DirectionsAreUnitSteps()
    ensures forall k :: 0 <= k < 6 ==> Directions[k].q + Directions[k].r + Directions[k].s == 0
    ensures forall k :: 0 <= k < 6 ==> Directions[k] != Cube(0, 0, 0)
  {
  }

  /** The direction list is closed under negation: direction k and direction (k + 3) % 6 cancel. */
  lemma DirectionsClosedUnderNegation()
    ensures forall k :: 0 <= k < 6 ==> Negate(Directions[k]) == Directions[(k + 3) % 6]
  {
  }

  // ---------------------------------------------------------------------------
  // The explicit table

  /** The six candidates of a cell in an even column. */
  function EvenTable(c: Cell): seq<Cell> {
    var r, k := c.row, c.col;
    [Cell(r - 1, k + 1), Cell(r, k + 1), Cell(r + 1, k), Cell(r, k - 1), Cell(r - 1, k - 1), Cell(r - 1, k)]
  }

  /** The six candidates of a cell in an odd column. */
  function OddTable(c: Cell): seq<Cell> {
    var r, k := c.row, c.col;
    [Cell(r, k + 1), Cell(r + 1, k + 1), Cell(r + 1, k), Cell(r + 1, k - 1), Cell(r, k - 1), Cell(r - 1, k)]
  }

  /** The candidates, direction by direction, depend only on the parity of the column. */
  lemma {:induction false} CandidateTable(c: Cell)
    ensures c.col % 2 == 0 ==> Candidates(c) == EvenTable(c)
    ensures c.col % 2 == 1 ==> Candidates(c) == OddTable(c)
  {
    var k := c.col;
    if k % 2 == 0 {
      assert (k + 1) % 2 == 1 && (k - 1) % 2 == 1;
      assert (k + 1 - 1) / 2 == k / 2 && (k - 1 - 1) / 2 == k / 2 - 1;
      assert (k - k % 2) / 2 == k / 2;
    } else {
      assert (k + 1) % 2 == 0 && (k - 1) % 2 == 0;
      assert (k + 1) / 2 == (k - 1) / 2 + 1;
      assert (k - k % 2) / 2 == (k - 1) / 2;
    }
  }

  /** The six candidates are pairwise distinct and none is the cell itself. */
  lemma CandidatesDistinct(c: Cell)
    ensures forall i, j :: 0 <= i < j < 6 ==> Candidates(c)[i] != Candidates(c)[j]
    ensures c !in Candidates(c)
  {
    CandidateTable(c);
  }

  lemma {:induction false} KeepNonNegativeDistinct(cs: seq<Cell>)
    requires forall i, j :: 0 <= i < j < |cs| ==> cs[i] != cs[j]
    ensures forall i, j :: 0 <= i < j < |KeepNonNegative(cs)| ==> KeepNonNegative(cs)[i] != KeepNonNegative(cs)[j]
  {
    if cs != [] {
      KeepNonNegativeDistinct(cs[1..]);
      var rest := KeepNonNegative(cs[1..]);
      assert cs[0] !in cs[1..];
      assert cs[0] !in rest;
    }
  }

  /** At most six neighbours, all non-negative, pairwise distinct, and never the cell itself. */
  lemma NeighborsWellFormed(c: Cell)
    ensures |Neighbors(c)| <= 6
    ensures forall x :: x in Neighbors(c) ==> NonNegative(x)
    ensures forall i, j :: 0 <= i < j < |Neighbors(c)| ==> Neighbors(c)[i] != Neighbors(c)[j]
    ensures c !in Neighbors(c)
  {
    CandidatesDistinct(c);
    KeepNonNegativeDistinct(Candidates(c));
  }

  /** Membership in the neighbour list, as an explicit condition on coordinates. */
  lemma NeighborsByParity(c: Cell, x: Cell)
    ensures x in Neighbors(c) <==>
      NonNegative(x) && x in Table(c)
  {
    CandidateTable(c);
  }

  /** The candidate table of a cell, chosen by the parity of its column. */
  function Table(c: Cell): seq<Cell> {
    if c.col % 2 == 0 then EvenTable(c) else OddTable(c)
  }

  /** Every table entry of x has x among its own table entries, case by case. */
  lemma {:induction false} TableSymmetric(x: Cell, y: Cell)
    requires y in Table(x)
    ensures x in Table(y)
  {
    var r, k := x.row, x.col;
    if k % 2 == 0 {
      assert (k + 1) % 2 == 1 && (k - 1) % 2 == 1;
      if y == Cell(r - 1, k + 1) { assert Table(y)[3] == x; }
      else if y == Cell(r, k + 1) { assert Table(y)[4] == x; }
      else if y == Cell(r + 1, k) { assert Table(y)[5] == x; }
      else if y == Cell(r, k - 1) { assert Table(y)[0] == x; }
      else if y == Cell(r - 1, k - 1) { assert Table(y)[1] == x; }
      else { assert y == Cell(r - 1, k); assert Table(y)[2] == x; }
    } else {
      assert (k + 1) % 2 == 0 && (k - 1) % 2 == 0;
      if y == Cell(r, k + 1) { assert Table(y)[3] == x; }
      else if y == Cell(r + 1, k + 1) { assert Table(y)[4] == x; }
      else if y == Cell(r + 1, k) { assert Table(y)[5] == x; }
      else if y == Cell(r + 1, k - 1) { assert Table(y)[0] == x; }
      else if y == Cell(r, k - 1) { assert Table(y)[1] == x; }
      else { assert y == Cell(r - 1, k); assert Table(y)[2] == x; }
    }
  }

  /** Adjacency is symmetric on non-negative cells. */
  lemma NeighborsSymmetric(x: Cell, y: Cell)
    requires NonNegative(x)
    ensures y in Neighbors(x) ==> x in Neighbors(y)
  {
    if y in Neighbors(x) {
      NeighborsByParity(x, y);
      TableSymmetric(x, y);
      NeighborsByParity(y, x);
    }
  }
}
