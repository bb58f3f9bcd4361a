/**
 * `calculate_hexagon_influence` (honeycomb/hexagon_grid.py and backend/hexagon_grid.py):
 * choose the grid extent, lay out the lattice, aggregate the joined events, rate every
 * hexagon and run one round of neighbour influence.
 *
 * Projection, the polygon union and the spatial join are given as values: the projected
 * boundary is a `Region` (its bounds and the centre-containment test), each event carries
 * the id of the hexagon it lies in, and `points` are the projected event positions.
 * Several names the source uses are not imported: `math` in both copies, `os` and
 * `load_json_file` in honeycomb/hexagon_grid.py, and `Polygon`, `unary_union` and
 * `transform` in backend/hexagon_grid.py. As written, each copy therefore raises before
 * producing a grid and returns `None` from its outer `except`. The model treats these
 * names as available and describes the algorithm the code spells out.
 */
module HexagonInfluence {
  import opened Wrappers
  import opened HexNeighbors
  import opened HexLattice
  import opened Aggregation
  import opened Classifier
  import opened Propagation
  import Boundary

  /** The districts used when no list is given. */
  const DefaultTargets: seq<string> := ["海淀区", "朝阳区", "东城区", "西城区", "石景山区", "丰台区"]

  function TargetsOrDefault(targets: Option<seq<string>>): seq<string> {
    targets.GetOr(DefaultTargets)
  }

  /** A projected (UTM) position. */
  datatype Point = Point(x: real, y: real)

  /** The projected boundary: its bounds and whether the centre of candidate `(col, row)` lies inside. */
  datatype Region = Region(bounds: Box, contains: (nat, nat) -> bool)

  /**
   * `if beijing_poly:` picks the grid extent. `Bounded` uses the boundary; `DataExtent`
   * uses the extent of the events and is meant to keep every candidate. In the source that
   * fallback does not produce a grid: its retention test reads `beijing_utm`, which is
   * assigned only in the boundary branch, so the first candidate raises and the outer
   * `except` returns `None` (see `FallbackAsWritten`).
   */
  datatype GridMode = Bounded(region: Region) | DataExtent

  /** An empty union is falsy, so the boundary is used only when some polygon was loaded. */
  function ChooseMode(polygons: Option<seq<Boundary.Outline>>, region: Region): GridMode {
    if polygons.Some? && |polygons.value| > 0 then Bounded(region) else DataExtent
  }

  /** The boundary is used exactly when the file loads and some selected feature has a ring. */
  lemma ModeFromFile(geo: Option<seq<Boundary.Feature>>, targets: Option<seq<string>>, region: Region)
    ensures ChooseMode(Boundary.BoundaryPolygons(geo, TargetsOrDefault(targets)), region).Bounded? <==>
      Boundary.BoundaryPolygons(geo, TargetsOrDefault(targets)).Some? &&
      Boundary.RingCount(geo.value, TargetsOrDefault(targets)) > 0
  {
    if geo.Some? {
      Boundary.SelectedRingsCount(geo.value, TargetsOrDefault(targets));
    }
  }

  function RetainOf(mode: GridMode): (nat, nat) -> bool {
    match mode
    case Bounded(region) => region.contains
    case DataExtent => RetainAll
  }

  // ---------------------------------------------------------------------------
  // Extent of the data

  function Widen(b: Box, p: Point): Box {
    Box(if p.x < b.minX then p.x else b.minX, if p.y < b.minY then p.y else b.minY,
        if p.x > b.maxX then p.x else b.maxX, if p.y > b.maxY then p.y else b.maxY)
  }

  /**
   * The running min/max over the points. With no point the source's bounds stay infinite
   * and `int(-inf)` raises, so the outer `except` returns `None`.
   */
  function Extent(points: seq<Point>): Option<Box> {
    if |points| == 0 then None
    else if |points| == 1 then Some(Box(points[0].x, points[0].y, points[0].x, points[0].y))
    else Some(Widen(Extent(points[..|points| - 1]).value, points[|points| - 1]))
  }

  predicate Encloses(b: Box, points: seq<Point>) {
    forall k :: 0 <= k < |points| ==>
      b.minX <= points[k].x <= b.maxX && b.minY <= points[k].y <= b.maxY
  }

  predicate Attained(b: Box, points: seq<Point>) {
    && (exists k :: 0 <= k < |points| && points[k].x == b.minX)
    && (exists k :: 0 <= k < |points| && points[k].y == b.minY)
    && (exists k :: 0 <= k < |points| && points[k].x == b.maxX)
    && (exists k :: 0 <= k < |points| && points[k].y == b.maxY)
  }

  /** The extent is the smallest box holding every point: it encloses them and each side is attained. */
  lemma {:induction false} ExtentSpec(points: seq<Point>)
    ensures Extent(points).None? <==> |points| == 0
    ensures Extent(points).Some? ==> Encloses(Extent(points).value, points) && Attained(Extent(points).value, points)
  {
    if |points| > 1 {
      var init := points[..|points| - 1];
      ExtentSpec(init);
      var b, p := Extent(init).value, points[|points| - 1];
      var w := Widen(b, p);
      forall k | 0 <= k < |points|
        ensures w.minX <= points[k].x <= w.maxX && w.minY <= points[k].y <= w.maxY
      {
        if k < |init| { assert points[k] == init[k]; }
      }
      var last := |points| - 1;
      if p.x < b.minX { assert points[last].x == w.minX; }
      else { var k :| 0 <= k < |init| && init[k].x == b.minX; assert points[k] == init[k]; }
      if p.y < b.minY { assert points[last].y == w.minY; }
      else { var k :| 0 <= k < |init| && init[k].y == b.minY; assert points[k] == init[k]; }
      if p.x > b.maxX { assert points[last].x == w.maxX; }
      else { var k :| 0 <= k < |init| && init[k].x == b.maxX; assert points[k] == init[k]; }
      if p.y > b.maxY { assert points[last].y == w.maxY; }
      else { var k :| 0 <= k < |init| && init[k].y == b.maxY; assert points[k] == init[k]; }
    } else if |points| == 1 {
      assert points[0].x == Extent(points).value.minX;
    }
  }

  /** The `for lng, lat in zip(...)` min/max loop of the fallback branch. */
  method DataExtentBox(points: seq<Point>) returns (box: Option<Box>)
    ensures box == Extent(points)
  {
    if |points| == 0 {
      return None;
    }
    var b := Box(points[0].x, points[0].y, points[0].x, points[0].y);
    for i := 1 to |points|
      invariant Extent(points[..i]) == Some(b)
    {
      assert points[..i + 1][..i] == points[..i];
      var p := points[i];
      b := Box(if p.x < b.minX then p.x else b.minX, if p.y < b.minY then p.y else b.minY,
               if p.x > b.maxX then p.x else b.maxX, if p.y > b.maxY then p.y else b.maxY);
    }
    assert points[..|points|] == points;
    box := Some(b);
  }

  // ---------------------------------------------------------------------------
  // The pipeline

  /** One row of the result: id, lattice position, aggregated statistics and final rating. */
  datatype Hexagon = Hexagon(id: nat, row: int, col: int, stats: Stats, starRating: int)

  /** The box the candidates are laid out in: the boundary or data extent, widened by the margin. */
  function GridBox(mode: GridMode, points: seq<Point>): Option<Box> {
    match mode
    case Bounded(region) => Some(Expand(region.bounds))
    case DataExtent => if Extent(points).None? then None else Some(Expand(Extent(points).value))
  }

  /** The classifier rating of hexagons `0 .. n-1`, before neighbour influence. */
  function Ratings(events: seq<Event>, n: nat): (stars: seq<int>)
    ensures |stars| == n
  {
    seq(n, i requires 0 <= i < n => StarRating(HexStats(events, i)))
  }

  /** The retained cells of the grid laid out in `box`. */
  function GridCells(mode: GridMode, dims: Dims): seq<Cell> {
    RetainedCells(RangeLength(dims.numCols), RangeLength(dims.numRows), RetainOf(mode))
  }

  /** The result rows for the retained cells, ids in lattice order. */
  ghost function Rows(cells: seq<Cell>, events: seq<Event>): (hexes: seq<Hexagon>)
    ensures |hexes| == |cells|
  {
    var finals := Propagated(cells, Ratings(events, |cells|));
    seq(|cells|, i requires 0 <= i < |cells| =>
      Hexagon(i, cells[i].row, cells[i].col, HexStats(events, i), if i < |finals| then finals[i] else 0))
  }

  /** The retained cells of the laid-out grid, or `None` when no grid can be laid out. */
  function Lattice(mode: GridMode, points: seq<Point>, hexSize: real, sqrt3: real): Option<seq<Cell>>
    requires sqrt3 > 0.0
  {
    var box := GridBox(mode, points);
    if box.None? then None
    else
      var dims := GridDims(box.value, hexSize, sqrt3);
      if dims.None? then None
      else Some(GridCells(mode, dims.value))
  }

  /**
   * What `calculate_hexagon_influence` returns, as a function of its inputs. An empty
   * lattice also gives `None`: `gpd.GeoDataFrame([], geometry='geometry', ...)` has no
   * `geometry` column to set, and the outer `except` catches the error. The `else` branch
   * that zero-fills the columns is therefore unreachable.
   */
  ghost function Influence(mode: GridMode, points: seq<Point>, hexSize: real, sqrt3: real, events: seq<Event>): Option<seq<Hexagon>>
    requires sqrt3 > 0.0
  {
    var lattice := Lattice(mode, points, hexSize, sqrt3);
    if lattice.None? || |lattice.value| == 0 then None
    else Some(Rows(lattice.value, events))
  }

  /** The two branches of `if beijing_poly:` that compute the bounds. */
  method ComputeBox(mode: GridMode, points: seq<Point>) returns (box: Option<Box>)
    ensures box == GridBox(mode, points)
  {
    match mode {
      case Bounded(region) =>
        box := Some(Expand(region.bounds));
      case DataExtent =>
        var extent := DataExtentBox(points);
        if extent.None? {
          return None;
        }
        box := Some(Expand(extent.value));
    }
  }

  /** Join, aggregation, rating and neighbour influence over the generated lattice. */
  method RateLattice(lattice: seq<HexCell>, ghost cells: seq<Cell>, events: seq<Event>) returns (hexes: seq<Hexagon>)
    requires |lattice| == |cells|
    requires forall i :: 0 <= i < |lattice| ==> lattice[i].id == i && lattice[i].cell == cells[i]
    ensures hexes == Rows(cells, events)
  {
    var n := |lattice|;
    var grid := seq(n, i requires 0 <= i < n => lattice[i].cell);
    assert grid == cells;
    var stats := Aggregate(events, n);
    var stars := new int[n](i requires 0 <= i < n => StarRating(stats[i]));
    assert stars[..] == Ratings(events, n);
    ApplyNeighborInfluence(grid, stars);
    var finals := stars[..];
    hexes := seq(n, i requires 0 <= i < n => Hexagon(lattice[i].id, grid[i].row, grid[i].col, stats[i], finals[i]));
  }

  method CalculateHexagonInfluence(mode: GridMode, points: seq<Point>, hexSize: real, sqrt3: real, events: seq<Event>)
    returns (result: Option<seq<Hexagon>>)
    requires sqrt3 > 0.0
    ensures result == Influence(mode, points, hexSize, sqrt3, events)
  {
    var box := ComputeBox(mode, points);
    if box.None? {
      return None;
    }
    var dims := GridDims(box.value, hexSize, sqrt3);
    if dims.None? {
      return None;
    }
    var lattice := GenerateLattice(dims.value.numCols, dims.value.numRows, RetainOf(mode));
    if |lattice| == 0 {
      return None;
    }
    var hexes := RateLattice(lattice, GridCells(mode, dims.value), events);
    result := Some(hexes);
  }

  // ---------------------------------------------------------------------------
  // Properties of the result

  /** The lattice is a set of distinct, non-negative cells. */
  lemma GridCellsWellFormed(mode: GridMode, dims: Dims)
    ensures Unique(GridCells(mode, dims))
    ensures forall k :: 0 <= k < |GridCells(mode, dims)| ==> NonNegative(GridCells(mode, dims)[k])
  {
    var cols, rows, retain := RangeLength(dims.numCols), RangeLength(dims.numRows), RetainOf(mode);
    var cells := GridCells(mode, dims);
    RetainedCellsOrdered(cols, rows, retain);
    ColMajorUnique(cells);
    RetainedCellsMembership(cols, rows, retain);
    forall k | 0 <= k < |cells| ensures NonNegative(cells[k]) {
      assert cells[k] in cells;
    }
  }

  /** A grid is laid out exactly when there is something to measure the extent of and the hex size is not 0. */
  lemma LatticeLaidOut(mode: GridMode, points: seq<Point>, hexSize: real, sqrt3: real)
    requires sqrt3 > 0.0
    ensures Lattice(mode, points, hexSize, sqrt3).None? <==> (mode.DataExtent? && |points| == 0) || hexSize == 0.0
  {
    ExtentSpec(points);
  }

  /**
   * No result exactly when there is nothing to measure the extent of, the hex size is 0,
   * or no candidate of the grid is retained.
   */
  lemma InfluenceFails(mode: GridMode, points: seq<Point>, hexSize: real, sqrt3: real, events: seq<Event>)
    requires sqrt3 > 0.0
    ensures Influence(mode, points, hexSize, sqrt3, events).None? <==>
      (mode.DataExtent? && |points| == 0) || hexSize == 0.0 || Lattice(mode, points, hexSize, sqrt3) == Some([])
  {
    LatticeLaidOut(mode, points, hexSize, sqrt3);
  }

  /**
   * Every row of the result: ids 0..n-1 in col-major order over the retained candidates,
   * the statistics of the events joined to it, and a final rating that is the neighbour
   * table applied to the classifier ratings of the hexagon and of its own neighbours.
   */
  lemma InfluenceRow(mode: GridMode, points: seq<Point>, hexSize: real, sqrt3: real, events: seq<Event>, i: nat)
    requires sqrt3 > 0.0
    ensures var lattice := Lattice(mode, points, hexSize, sqrt3);
      var result := Influence(mode, points, hexSize, sqrt3, events);
      result.Some? ==>
        var cells, hexes := lattice.value, result.value;
        var stars := Ratings(events, |cells|);
        && lattice.Some? && |hexes| == |cells| > 0
        && (i < |hexes| ==>
          && hexes[i].id == i && Cell(hexes[i].row, hexes[i].col) == cells[i]
          && hexes[i].stats == HexStats(events, i)
          && hexes[i].starRating ==
            FinalRating(stars[i], NeighborRated(cells, stars, i, 4), NeighborRated(cells, stars, i, 3)))
  {
    var box := GridBox(mode, points);
    if box.Some? {
      var dims := GridDims(box.value, hexSize, sqrt3);
      if dims.Some? {
        var cells := GridCells(mode, dims.value);
        if i < |cells| {
          GridCellsWellFormed(mode, dims.value);
          PropagatedClosedForm(cells, Ratings(events, |cells|), i);
        }
      }
    }
  }

  /** With non-negative severities every final rating lies in 0..4. */
  lemma InfluenceRatingsInRange(mode: GridMode, points: seq<Point>, hexSize: real, sqrt3: real, events: seq<Event>, i: nat)
    requires sqrt3 > 0.0
    requires forall e :: e in events ==> e.severity >= 0
    ensures var result := Influence(mode, points, hexSize, sqrt3, events);
      result.Some? && i < |result.value| ==> 0 <= result.value[i].starRating <= 4
  {
    var lattice := Lattice(mode, points, hexSize, sqrt3);
    if lattice.Some? && i < |lattice.value| {
      StarRatingOfHexagon(events, i);
      PropagationRaises(lattice.value, Ratings(events, |lattice.value|), i);
    }
  }

  /**
   * Without a boundary every candidate of the grid is kept (the evidently intended
   * fallback), and with a positive hex size the grid is not empty, so there is a result.
   */
  lemma DataExtentKeepsAll(points: seq<Point>, hexSize: real, sqrt3: real, events: seq<Event>)
    requires sqrt3 > 0.0 && hexSize != 0.0 && |points| > 0
    ensures Lattice(DataExtent, points, hexSize, sqrt3).Some?
    ensures var dims := GridDims(GridBox(DataExtent, points).value, hexSize, sqrt3).value;
      |Lattice(DataExtent, points, hexSize, sqrt3).value| == RangeLength(dims.numCols) * RangeLength(dims.numRows)
    ensures hexSize > 0.0 ==> Influence(DataExtent, points, hexSize, sqrt3, events).Some?
  {
    ExtentSpec(points);
    var b := Extent(points).value;
    var dims := GridDims(Expand(b), hexSize, sqrt3).value;
    RetainAllSize(RangeLength(dims.numCols), RangeLength(dims.numRows));
    if hexSize > 0.0 {
      assert Encloses(b, points);
      assert b.minX <= points[0].x <= b.maxX && b.minY <= points[0].y <= b.maxY;
      GridCoversBox(b, hexSize, sqrt3);
    }
  }

  /**
   * The fallback as written: the first candidate evaluates `beijing_utm is None`, a name
   * never bound in that branch, so any non-empty candidate grid makes the call return `None`.
   */
  function FallbackAsWritten(points: seq<Point>, hexSize: real, sqrt3: real): Option<Dims>
    requires sqrt3 > 0.0
  {
    var box := GridBox(DataExtent, points);
    if box.None? then None
    else
      var dims := GridDims(box.value, hexSize, sqrt3);
      if dims.None? then None
      else if RangeLength(dims.value.numCols) > 0 && RangeLength(dims.value.numRows) > 0 then None
      else dims
  }

  /** With events and a positive hex size the fallback as written never yields a grid. */
  lemma FallbackAsWrittenFails(points: seq<Point>, hexSize: real, sqrt3: real)
    requires sqrt3 > 0.0 && hexSize > 0.0 && |points| > 0
    ensures FallbackAsWritten(points, hexSize, sqrt3) == None
    ensures Influence(DataExtent, points, hexSize, sqrt3, []).Some?
  {
    ExtentSpec(points);
    var b := Extent(points).value;
    assert Encloses(b, points);
    assert b.minX <= points[0].x <= b.maxX && b.minY <= points[0].y <= b.maxY;
    GridCoversBox(b, hexSize, sqrt3);
    DataExtentKeepsAll(points, hexSize, sqrt3, []);
  }
}
