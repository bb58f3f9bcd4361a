/**
 * Candidate grid and its col-major enumeration (the grid part of
 * `calculate_hexagon_influence` in honeycomb/hexagon_grid.py and backend/hexagon_grid.py).
 *
 * Geometry is abstracted: the projected bounding box is given in metres, `sqrt3` stands
 * for `math.sqrt(3)`, and the boundary test `beijing_utm.contains(center)` is a given
 * predicate on (col, row), since the centre of a candidate is a function of its column
 * and row once the box and the spacings are fixed.
 */
module HexLattice {
  import opened Wrappers
  import opened HexNeighbors

  /** A planar bounding box `(min_x, min_y, max_x, max_y)`. */
  datatype Box = Box(minX: real, minY: real, maxX: real, maxY: real)

  /** `expand_margin = 5000`, added on every side of the box. */
  const ExpandMargin: real := 5000.0

  function Expand(b: Box): Box {
    Box(b.minX - ExpandMargin, b.minY - ExpandMargin, b.maxX + ExpandMargin, b.maxY + ExpandMargin)
  }

  /** Python's `int(x)` on a float: truncation toward zero. */
  function Trunc(x: real): (t: int)
    ensures x >= 0.0 ==> 0 <= t && t as real <= x < t as real + 1.0
    ensures x < 0.0 ==> t <= 0 && t as real - 1.0 < x <= t as real
  {
    if x >= 0.0 then x.Floor else -((-x).Floor)
  }

  /** Number of candidate columns and rows; a negative count means `range` is empty. */
  datatype Dims = Dims(numCols: int, numRows: int)

  /**
   * `num_cols = int((max_x - min_x) / (1.5 * s)) + 5` and
   * `num_rows = int((max_y - min_y) / (sqrt(3) * s)) + 5`.
   * A hex size of 0 divides by zero, so the source's outer `except` returns `None`.
   */
  function GridDims(box: Box, hexSize: real, sqrt3: real): Option<Dims>
    requires sqrt3 > 0.0
  {
    if hexSize == 0.0 then None
    else
      var horizontal := hexSize * 1.5;
      var vertical := hexSize * sqrt3;
      Some(Dims(Trunc((box.maxX - box.minX) / horizontal) + 5, Trunc((box.maxY - box.minY) / vertical) + 5))
  }

  lemma ProductMonotone(a: real, b: real, x: real, y: real)
    requires 0.0 <= x <= a && 0.0 <= y <= b
    ensures x * y <= a * b
  {
    assert x * y <= a * y;
    assert a * y <= a * b;
  }

  lemma DivisionBelow(w: real, d: real, n: int)
    requires d > 0.0 && w >= 0.0 && w / d < n as real
    ensures w < n as real * d
  {
    assert w == (w / d) * d;
  }

  /**
   * For a well-formed boundary box widened by the margin and a positive hex size: at least
   * 5 columns and rows, the last column and row of centres lie beyond the far edge of the
   * widened box, and the number of candidates is at least (W / 1.5s) * (H / sqrt(3)s).
   */
  lemma {:induction false} GridCoversBox(bounds: Box, hexSize: real, sqrt3: real)
    requires sqrt3 > 0.0 && hexSize > 0.0
    requires bounds.minX <= bounds.maxX && bounds.minY <= bounds.maxY
    ensures var box := Expand(bounds);
      var d := GridDims(box, hexSize, sqrt3);
      var w, h := box.maxX - box.minX, box.maxY - box.minY;
      && d.Some?
      && d.value.numCols >= 5 && d.value.numRows >= 5
      && box.minX + (d.value.numCols - 1) as real * (hexSize * 1.5) > box.maxX
      && box.minY + (d.value.numRows - 1) as real * (hexSize * sqrt3) > box.maxY
      && (d.value.numCols as real) * (d.value.numRows as real) >= (w / (hexSize * 1.5)) * (h / (hexSize * sqrt3))
  {
    var box := Expand(bounds);
    var w, h := box.maxX - box.minX, box.maxY - box.minY;
    var hs, vs := hexSize * 1.5, hexSize * sqrt3;
    assert hs > 0.0 && vs > 0.0 by {
      assert hexSize * sqrt3 > 0.0;
    }
    assert w >= 10000.0 && h >= 10000.0;
    var d := GridDims(box, hexSize, sqrt3).value;
    var tc, tr := Trunc(w / hs), Trunc(h / vs);
    assert w / hs >= 0.0 && h / vs >= 0.0;
    assert d.numCols == tc + 5 && d.numRows == tr + 5;
    DivisionBelow(w, hs, tc + 1);
    DivisionBelow(h, vs, tr + 1);
    assert (d.numCols - 1) as real * hs == (tc + 1) as real * hs + 3.0 * hs;
    assert (d.numRows - 1) as real * vs == (tr + 1) as real * vs + 3.0 * vs;
    ProductMonotone(d.numCols as real, d.numRows as real, w / hs, h / vs);
  }

  // ---------------------------------------------------------------------------
  // Enumeration

  /** A retained candidate: `hex_id` together with its `(row, col)`. */
  datatype HexCell = HexCell(id: nat, cell: Cell)

  /** The retained cells of column `col` among its first `rows` rows, in row order. */
  function ColumnCells(col: nat, rows: nat, retain: (nat, nat) -> bool): seq<Cell> {
    if rows == 0 then []
    else ColumnCells(col, rows - 1, retain) + (if retain(col, rows - 1) then [Cell(rows - 1, col)] else [])
  }

  /** The retained cells of the first `cols` columns, column by column. */
  function RetainedCells(cols: nat, rows: nat, retain: (nat, nat) -> bool): seq<Cell> {
    if cols == 0 then []
    else RetainedCells(cols - 1, rows, retain) + ColumnCells(cols - 1, rows, retain)
  }

  /** `range(n)` for an int n is empty when n <= 0. */
  function RangeLength(n: int): nat {
    if n < 0 then 0 else n
  }

  /**
   * The nested `for col / for row` loop: a retained candidate gets the current `hex_id`,
   * and the counter goes up only then. Ids are therefore 0..n-1 in visiting order.
   */
  method GenerateLattice(numCols: int, numRows: int, retain: (nat, nat) -> bool) returns (hexagons: seq<HexCell>)
    ensures var cells := RetainedCells(RangeLength(numCols), RangeLength(numRows), retain);
      && |hexagons| == |cells|
      && forall i :: 0 <= i < |hexagons| ==> hexagons[i].id == i && hexagons[i].cell == cells[i]
  {
    var cols, rows := RangeLength(numCols), RangeLength(numRows);
    hexagons := [];
    var hexId: nat := 0;
    var col: nat := 0;
    while col < cols
      invariant col <= cols
      invariant hexId == |hexagons| == |RetainedCells(col, rows, retain)|
      invariant forall i :: 0 <= i < |hexagons| ==> hexagons[i].id == i && hexagons[i].cell == RetainedCells(col, rows, retain)[i]
    {
      var row: nat := 0;
      ghost var done := RetainedCells(col, rows, retain);
      while row < rows
        invariant row <= rows
        invariant hexId == |hexagons| == |done + ColumnCells(col, row, retain)|
        invariant forall i :: 0 <= i < |hexagons| ==> hexagons[i].id == i && hexagons[i].cell == (done + ColumnCells(col, row, retain))[i]
      {
        if retain(col, row) {
          hexagons := hexagons + [HexCell(hexId, Cell(row, col))];
          hexId := hexId + 1;
        }
        assert done + ColumnCells(col, row + 1, retain)
          == (done + ColumnCells(col, row, retain)) + (if retain(col, row) then [Cell(row, col)] else []);
        row := row + 1;
      }
      col := col + 1;
    }
  }

  // ---------------------------------------------------------------------------
  // Properties of the enumeration

  /** Column-major order on cells: by column, then by row. */
  predicate ColMajorLess(a: Cell, b: Cell) {
    a.col < b.col || (a.col == b.col && a.row < b.row)
  }

  predicate StrictlyColMajor(cells: seq<Cell>) {
    forall i, j :: 0 <= i < j < |cells| ==> ColMajorLess(cells[i], cells[j])
  }

  /** Every retained cell of a column lies in that column, below row `rows`; at most `rows` of them. */
  lemma {:induction false} ColumnCellsBounds(col: nat, rows: nat, retain: (nat, nat) -> bool)
    ensures |ColumnCells(col, rows, retain)| <= rows
    ensures forall i :: 0 <= i < |ColumnCells(col, rows, retain)| ==>
      ColumnCells(col, rows, retain)[i].col == col && 0 <= ColumnCells(col, rows, retain)[i].row < rows
  {
    if rows > 0 {
      ColumnCellsBounds(col, rows - 1, retain);
    }
  }

  lemma {:induction false} ColumnCellsMembership(col: nat, rows: nat, retain: (nat, nat) -> bool)
    ensures forall x :: x in ColumnCells(col, rows, retain) <==> x.col == col && 0 <= x.row < rows && retain(col, x.row)
  {
    if rows > 0 {
      ColumnCellsMembership(col, rows - 1, retain);
    }
  }

  lemma {:induction false} ColumnCellsOrdered(col: nat, rows: nat, retain: (nat, nat) -> bool)
    ensures StrictlyColMajor(ColumnCells(col, rows, retain))
  {
    if rows > 0 {
      ColumnCellsOrdered(col, rows - 1, retain);
      ColumnCellsBounds(col, rows - 1, retain);
      var prev := ColumnCells(col, rows - 1, retain);
      ConcatColMajor(prev, if retain(col, rows - 1) then [Cell(rows - 1, col)] else []);
    }
  }

  /** At most cols * rows candidates are retained. */
  lemma {:induction false} RetainedCellsSize(cols: nat, rows: nat, retain: (nat, nat) -> bool)
    ensures |RetainedCells(cols, rows, retain)| <= cols * rows
  {
    if cols > 0 {
      RetainedCellsSize(cols - 1, rows, retain);
      ColumnCellsBounds(cols - 1, rows, retain);
      assert (cols - 1) * rows + rows == cols * rows;
    }
  }

  /** A cell is retained exactly when it lies in the candidate rectangle and passes the boundary test. */
  lemma {:induction false} RetainedCellsMembership(cols: nat, rows: nat, retain: (nat, nat) -> bool)
    ensures forall x :: x in RetainedCells(cols, rows, retain) <==>
      0 <= x.col < cols && 0 <= x.row < rows && retain(x.col, x.row)
  {
    if cols > 0 {
      RetainedCellsMembership(cols - 1, rows, retain);
      ColumnCellsMembership(cols - 1, rows, retain);
      var prev, column := RetainedCells(cols - 1, rows, retain), ColumnCells(cols - 1, rows, retain);
      assert RetainedCells(cols, rows, retain) == prev + column;
      forall x: Cell ensures x in prev + column <==> 0 <= x.col < cols && 0 <= x.row < rows && retain(x.col, x.row) {
        assert x in prev + column <==> x in prev || x in column;
      }
    }
  }

  lemma ConcatColMajor(a: seq<Cell>, b: seq<Cell>)
    requires StrictlyColMajor(a) && StrictlyColMajor(b)
    requires forall i, j :: 0 <= i < |a| && 0 <= j < |b| ==> ColMajorLess(a[i], b[j])
    ensures StrictlyColMajor(a + b)
  {
    var s := a + b;
    forall i, j | 0 <= i < j < |s| ensures ColMajorLess(s[i], s[j]) {
      if j < |a| {
        assert s[i] == a[i] && s[j] == a[j];
      } else if i >= |a| {
        assert s[i] == b[i - |a|] && s[j] == b[j - |a|];
      } else {
        assert s[i] == a[i] && s[j] == b[j - |a|];
      }
    }
  }

  lemma {:induction false} RetainedCellsBelow(cols: nat, rows: nat, retain: (nat, nat) -> bool)
    ensures forall i :: 0 <= i < |RetainedCells(cols, rows, retain)| ==> RetainedCells(cols, rows, retain)[i].col < cols
  {
    if cols > 0 {
      RetainedCellsBelow(cols - 1, rows, retain);
      ColumnCellsBounds(cols - 1, rows, retain);
      var prev, column := RetainedCells(cols - 1, rows, retain), ColumnCells(cols - 1, rows, retain);
      var s := RetainedCells(cols, rows, retain);
      assert s == prev + column;
      forall i | 0 <= i < |s| ensures s[i].col < cols {
        if i < |prev| { assert s[i] == prev[i]; } else { assert s[i] == column[i - |prev|]; }
      }
    }
  }

  /** The retained cells come in strict col-major order, the order in which ids are handed out. */
  lemma {:induction false} RetainedCellsOrdered(cols: nat, rows: nat, retain: (nat, nat) -> bool)
    ensures StrictlyColMajor(RetainedCells(cols, rows, retain))
  {
    if cols > 0 {
      RetainedCellsOrdered(cols - 1, rows, retain);
      RetainedCellsBelow(cols - 1, rows, retain);
      ColumnCellsOrdered(cols - 1, rows, retain);
      ColumnCellsBounds(cols - 1, rows, retain);
      ConcatColMajor(RetainedCells(cols - 1, rows, retain), ColumnCells(cols - 1, rows, retain));
    }
  }

  /** Strict col-major order makes every (row, col) unique. */
  lemma ColMajorUnique(cells: seq<Cell>)
    requires StrictlyColMajor(cells)
    ensures forall i, j :: 0 <= i < |cells| && 0 <= j < |cells| && cells[i] == cells[j] ==> i == j
  {
  }

  /** The retention test of the data-extent grid: every candidate is kept. */
  predicate RetainAll(col: nat, row: nat) {
    true
  }

  /** Without a boundary every candidate is retained: exactly cols * rows hexagons. */
  lemma {:induction false} RetainAllSize(cols: nat, rows: nat)
    ensures |RetainedCells(cols, rows, RetainAll)| == cols * rows
  {
    if cols > 0 {
      RetainAllSize(cols - 1, rows);
      ColumnCellsFull(cols - 1, rows);
      assert (cols - 1) * rows + rows == cols * rows;
    }
  }

  lemma {:induction false} ColumnCellsFull(col: nat, rows: nat)
    ensures |ColumnCells(col, rows, RetainAll)| == rows
  {
    if rows > 0 {
      ColumnCellsFull(col, rows - 1);
    }
  }
}
