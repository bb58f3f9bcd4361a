# Hexagon influence engine: a Dafny model

The Weibo geo-influence tool puts geotagged posts about a windstorm on a honeycomb map of
central Beijing. It lays a lattice of hexagons over the selected districts. It counts the
posts of each impact level that fall in each hexagon and gives every hexagon a star rating
from 0 to 4. One round of neighbour influence then raises the ratings of weak hexagons
that border strong ones.

The engine exists twice, as near-duplicates:

- honeycomb/hexagon_grid.py: `get_neighbors` 16-32, `load_beijing_boundary` 34-69, and
  `calculate_hexagon_influence` 71-259 with the propagation inline at 200-244;
- backend/hexagon_grid.py: `load_beijing_boundary` 12-41, `calculate_hexagon_influence`
  43-194, and `apply_neighbor_influence` 196-247, with `get_neighbors` at backend/utils.py:51-69.

The model is a single engine, checked against both copies. The table cites the honeycomb
copy where both copies agree. The backend copy's lines are the same code at the offsets
above.

| Module (file) | What it models |
|---|---|
| `HexNeighbors` (neighbors.dfy) | odd-q offset ↔ cube coordinates and `get_neighbors`, as a function and as its loop |
| `HexLattice` (lattice.dfy) | the margin, the grid dimensions and the col-major enumeration loop that hands out `hex_id` |
| `Boundary` (boundary.dfy) | district filtering and ring extraction in `load_beijing_boundary` |
| `Aggregation` (aggregation.dfy) | the per-hexagon `groupby` statistics after the spatial join, with the zero fill |
| `Classifier` (classifier.dfy) | `star_rating` |
| `Propagation` (propagation.dfy) | the `(row, col) → id` map, the neighbour lists, the proposal loop over a snapshot, and the write phase on an array of ratings |
| `HexagonInfluence` (influence.dfy) | the pipeline: grid-extent mode, data-extent box, lattice, statistics, ratings |
| `DataLoader` (data_loader.dfy) | `filter_data_by_date` in backend/data_loader.py |
| `Config` (config.py → config.dfy) | `DEFAULT_CONFIG` and `load_config` |

Several computations are inputs of the model rather than parts of it:

- **Projection and geometry.** The projected boundary is a `Region`: its bounds, together
  with a predicate telling whether the centre of candidate `(col, row)` lies inside.
  Projected event positions are `Point`s. `math.sqrt(3)` is a positive real parameter
  `sqrt3`.
- **The spatial join.** Each `Event` carries its severity and the id of the hexagon it lies
  in, if any.
- **The working directory.** `os.getcwd()` is a parameter `cwd`.

Python's `int()` on a float is modelled as truncation toward zero (`Trunc`). Python's
`col & 1` is Dafny's `col % 2`, which agrees for negative columns too. Where the documentation
and the code disagree, the model follows the code. The star legend in
honeycomb/config.py:25 says four stars need "level 2 + level 3 ≥ 10". The code gives four
stars when that sum is greater than 5.

## Model

| member | source | states |
|---|---|---|
| HexNeighbors.CubeToOffset | backend/utils.py:66-67 | definition: `ncol = q`, `nrow = r + (q - (q & 1)) // 2`; its inverse properties are the two round-trip lemmas below |
| HexNeighbors.OffsetToCube | backend/utils.py:55-57 | the cube coordinates of an offset cell satisfy q + r + s = 0 |
| HexNeighbors.OffsetCubeRoundTrip | backend/utils.py:55-57 | converting offset → cube → offset gives back the cell |
| HexNeighbors.CubeOffsetRoundTrip | backend/utils.py:66-67 | on cube coordinates with q + r + s = 0, converting cube → offset → cube gives back the coordinates |
| HexNeighbors.DirectionsAreUnitSteps | backend/utils.py:59-62 | each of the six directions is a non-zero step inside the plane q + r + s = 0 |
| HexNeighbors.DirectionsClosedUnderNegation | honeycomb/hexagon_grid.py:22-31 | the negation of direction k is direction k+3 (mod 6) |
| HexNeighbors.Candidates | backend/utils.py:63-68 | one candidate per direction, six in all, in the source's order |
| HexNeighbors.KeepNonNegative | backend/utils.py:69 | the final comprehension keeps exactly the cells with row ≥ 0 and col ≥ 0 and never adds any |
| HexNeighbors.Neighbors | backend/utils.py:51-69 | definition: the filtered candidates; GetNeighbors, NeighborsWellFormed, NeighborsByParity and NeighborsSymmetric state its properties |
| HexNeighbors.GetNeighbors | backend/utils.py:63-69 | the append loop followed by the filter returns exactly `Neighbors(c)` |
| HexNeighbors.CandidateTable | backend/utils.py:55-68 | even column c: (r−1,c+1), (r,c+1), (r+1,c), (r,c−1), (r−1,c−1), (r−1,c); odd c: (r,c+1), (r+1,c+1), (r+1,c), (r+1,c−1), (r,c−1), (r−1,c) |
| HexNeighbors.CandidatesDistinct | backend/utils.py:59-68 | the six candidates are pairwise distinct and never the input cell |
| HexNeighbors.KeepNonNegativeDistinct | backend/utils.py:69 | the filter keeps a list without repeats free of repeats |
| HexNeighbors.NeighborsWellFormed | honeycomb/hexagon_grid.py:16-32 | at most 6 neighbours, all non-negative, pairwise distinct, and none equal to the input |
| HexNeighbors.NeighborsByParity | backend/utils.py:55-69 | a cell is a neighbour exactly when it is non-negative and in the parity table |
| HexNeighbors.TableSymmetric | honeycomb/hexagon_grid.py:22-31 | if Y is in X's parity table then X is in Y's |
| HexNeighbors.NeighborsSymmetric | honeycomb/hexagon_grid.py:16-32 | for a non-negative X, Y ∈ N(X) implies X ∈ N(Y) |
| HexLattice.Expand | honeycomb/hexagon_grid.py:91-95 | definition: the box widened by 5000 on every side; used by GridCoversBox and HexagonInfluence.GridBox |
| HexLattice.GridDims | honeycomb/hexagon_grid.py:115-121 | definition: `None` for a hex size of 0 (division by zero), otherwise `int(W / 1.5s) + 5` columns and `int(H / √3 s) + 5` rows; GridCoversBox states what these cover |
| HexLattice.Trunc | honeycomb/hexagon_grid.py:120-121 | `int(x)` truncates toward zero: 0 ≤ t ≤ x < t+1 for x ≥ 0, and t−1 < x ≤ t ≤ 0 for x < 0 |
| HexLattice.GridCoversBox | backend/hexagon_grid.py:63-99 | with a boundary box widened by 5000 and a positive size: `num_cols = trunc(W/1.5s)+5` and `num_rows = trunc(H/√3s)+5` are both ≥ 5, the last centres lie beyond the far edges, and cols·rows ≥ (W/1.5s)(H/√3s) |
| HexLattice.ColumnCells | honeycomb/hexagon_grid.py:130-142 | definition: the retained cells of one column, in row order; ColumnCellsBounds, ColumnCellsMembership and ColumnCellsOrdered state its properties |
| HexLattice.RetainedCells | honeycomb/hexagon_grid.py:126-158 | definition: column by column, the retained cells of each; the specification of GenerateLattice, with properties in RetainedCellsSize, RetainedCellsMembership, RetainedCellsOrdered |
| HexLattice.GenerateLattice | honeycomb/hexagon_grid.py:126-158 | the nested loop yields the retained cells in visiting order, with ids 0..n−1 and no gaps; the counter moves only on retention |
| HexLattice.ColumnCellsBounds | honeycomb/hexagon_grid.py:128-129 | one column retains at most `num_rows` cells, all in that column and below `num_rows` |
| HexLattice.ColumnCellsMembership | honeycomb/hexagon_grid.py:128-142 | a cell of the column is retained exactly when its row is in range and it passes the boundary test |
| HexLattice.ColumnCellsOrdered | honeycomb/hexagon_grid.py:129 | within a column the retained rows strictly increase |
| HexLattice.RetainedCellsSize | honeycomb/hexagon_grid.py:126-158 | n ≤ num_cols · num_rows |
| HexLattice.RetainedCellsMembership | honeycomb/hexagon_grid.py:126-158 | a cell is retained exactly when col < num_cols, row < num_rows and its centre passes the boundary test |
| HexLattice.RetainedCellsBelow | honeycomb/hexagon_grid.py:126 | every retained cell has col < num_cols |
| HexLattice.ConcatColMajor | honeycomb/hexagon_grid.py:126-129 | appending a later column keeps the col-major order |
| HexLattice.RetainedCellsOrdered | honeycomb/hexagon_grid.py:126-158 | ids increase in strict (col, row) lexicographic order |
| HexLattice.ColMajorUnique | backend/hexagon_grid.py:104-135 | in col-major order every (row, col) occurs once |
| HexLattice.RetainAllSize | honeycomb/hexagon_grid.py:142 | when every candidate is retained there are exactly num_cols · num_rows hexagons |
| HexLattice.ColumnCellsFull | honeycomb/hexagon_grid.py:129-142 | when every candidate is retained a column holds exactly num_rows cells |
| Boundary.Selected | honeycomb/hexagon_grid.py:47-50 | definition: a feature is kept when the target list is empty or its `name` (default "") is listed |
| Boundary.Flatten | honeycomb/hexagon_grid.py:58-59 | definition: the rings of a MultiPolygon's polygons, polygon by polygon; FlattenSpec states its contents |
| Boundary.RingsOf | honeycomb/hexagon_grid.py:52-61 | definition: a Polygon's rings, a MultiPolygon's flattened rings, nothing for another type; RingsOfGeometry states it |
| Boundary.SelectedRings | honeycomb/hexagon_grid.py:46-61 | definition: the rings of the selected features in file order; SelectedRingsCount and SelectedRingsMembership state its properties |
| Boundary.BoundaryPolygons | honeycomb/hexagon_grid.py:36-69 | definition: `None` for a missing file or any ring that is not made of pairs, otherwise one outline per selected ring; LoadBoundary is proved to compute it |
| Boundary.ToOutline | honeycomb/hexagon_grid.py:55 | `[(lng, lat) for lng, lat in ring]` keeps the length, and packing each pair back into a list gives the ring's position again |
| Boundary.LoadBoundary | honeycomb/hexagon_grid.py:46-61 | the feature loop returns `BoundaryPolygons`: one outline per selected ring, in file order, or `None` when a position is not a pair |
| Boundary.NotAllPairs | honeycomb/hexagon_grid.py:55 | a selected ring that cannot be unpacked makes the whole load return `None` |
| Boundary.SelectedRingsPrefix | honeycomb/hexagon_grid.py:46-61 | the rings of the first i features are a prefix of all loaded rings |
| Boundary.FlattenSpec | honeycomb/hexagon_grid.py:58-61 | a MultiPolygon contributes exactly the rings of its polygons |
| Boundary.SelectedRingsCount | honeycomb/hexagon_grid.py:53-61 | each ring of a selected Polygon or MultiPolygon, holes included, yields exactly one polygon |
| Boundary.SelectedRingsMembership | honeycomb/hexagon_grid.py:46-61 | a ring is loaded exactly when its feature is selected and it is one of the feature's rings |
| Boundary.RingsOfGeometry | honeycomb/hexagon_grid.py:52-61 | a Polygon gives its rings, a MultiPolygon the rings of all its polygons, and any other geometry type none |
| Boundary.UnselectedContributesNothing | honeycomb/hexagon_grid.py:47-50 | with a non-empty target list, a feature whose name (default "") is not listed contributes nothing, wherever it stands |
| Aggregation.Matched | honeycomb/hexagon_grid.py:171 | the severities an inner join pairs with one hexagon are those of the events lying in it |
| Aggregation.MaxLevel | honeycomb/hexagon_grid.py:175 | `max` is an element of the group and at least every element, and the fill value is 0 for no events |
| Aggregation.CountOf | honeycomb/hexagon_grid.py:177-178 | `(s == v).sum()` is the number of occurrences of v in the group (its multiplicity), at most the group size, and zero exactly when v does not occur |
| Aggregation.CountOfDisjoint | honeycomb/hexagon_grid.py:177-181 | the count of 2s plus the count of 3s is at most the group size |
| Aggregation.HexStats | honeycomb/hexagon_grid.py:174-188 | count is the number of joined events, lv2_cnt and lv3_cnt are the numbers of its events with severity 2 and 3, lv2_plus_lv3 = lv2_cnt + lv3_cnt ≤ count, and an empty hexagon has every field 0 |
| Aggregation.SevereJoined | honeycomb/hexagon_grid.py:171-181 | the number of events joined to a hexagon with severity 2 or 3, counted directly on the events, is at most the number of events |
| Aggregation.SevereJoinedIsLv2PlusLv3 | honeycomb/hexagon_grid.py:177-181 | lv2_plus_lv3 of a hexagon equals the number of its events with severity 2 or 3 |
| Aggregation.Aggregate | honeycomb/hexagon_grid.py:184-188 | after the left merge and the zero fill, there is one statistics row per hexagon 0..n−1 |
| Aggregation.JoinedBelow | honeycomb/hexagon_grid.py:171 | at most the number of events join a hexagon |
| Aggregation.JoinedBelowStep | honeycomb/hexagon_grid.py:171-175 | the events joined to hexagons below n+1 are those below n plus those of hexagon n |
| Aggregation.SumCountsIsJoined | honeycomb/hexagon_grid.py:174-188 | the counts sum to the number of events joined to some hexagon |
| Aggregation.JoinedNone | honeycomb/hexagon_grid.py:171 | no event joins a hexagon when there are none |
| Aggregation.JoinedAll | honeycomb/hexagon_grid.py:171 | when every event lies in one of the hexagons, all of them are joined |
| Aggregation.Conservation | honeycomb/hexagon_grid.py:170-188 | the counts sum to at most the number of events, with equality when every event lies in some hexagon |
| Aggregation.MatchedSeverities | honeycomb/hexagon_grid.py:171-175 | a severity is in a hexagon's group exactly when some event with it lies in that hexagon |
| Aggregation.MaxLevelOfHexagon | honeycomb/hexagon_grid.py:175 | a non-empty hexagon's max_level is the severity of one of its events and at least every other |
| Classifier.StarRating | honeycomb/hexagon_grid.py:191-198 | rating 4 exactly when lv2_plus_lv3 > 5; otherwise at most 3 and at most max_level |
| Classifier.FourStarsOnEvents | honeycomb/hexagon_grid.py:194-195 | a hexagon gets four stars exactly when more than 5 of its events have severity 2 or 3 |
| Classifier.StarRatingOfHexagon | backend/hexagon_grid.py:169-176 | with non-negative severities the rating is in 0..4; no events gives 0; four stars need more than 5 events; below the threshold it is min(3, max_level) |
| Classifier.ThresholdIsStrict | honeycomb/hexagon_grid.py:194 | exactly 5 level-2/3 events do not give four stars, and 6 do |
| Propagation.IndexOf | honeycomb/hexagon_grid.py:201-203 | definition: the dictionary after inserting each cell's id in row order, a later id overwriting an earlier one |
| Propagation.IndexOfSpec | honeycomb/hexagon_grid.py:201-203 | the dictionary's keys are the cells, and each key maps to a position holding it |
| Propagation.IndexOfUnique | honeycomb/hexagon_grid.py:201-203 | with unique cells the dictionary maps every cell to its own id |
| Propagation.BuildIndex | honeycomb/hexagon_grid.py:201-203 | the `iterrows` loop builds `IndexOf(cells)` |
| Propagation.LookupAll | honeycomb/hexagon_grid.py:217-220 | definition: the ids of the candidates that are keys, in candidate order |
| Propagation.LookupAllSpec | honeycomb/hexagon_grid.py:217-220 | an id is listed exactly when some candidate cell is in the dictionary under that id |
| Propagation.NeighborLists | honeycomb/hexagon_grid.py:205-220 | there is one neighbour list per hexagon |
| Propagation.BuildNeighborLists | backend/hexagon_grid.py:199-220 | the two loops build `NeighborLists(cells)` |
| Propagation.LookupAllBelow | backend/hexagon_grid.py:217-220 | every id found is below n when the dictionary's ids are |
| Propagation.NeighborListsInRange | backend/hexagon_grid.py:215-220 | every stored neighbour id names a hexagon |
| Propagation.LookupInIndex | backend/hexagon_grid.py:217-220 | a listed id names a hexagon whose cell is a candidate, and every retained candidate is listed |
| Propagation.NeighborListsSpec | backend/hexagon_grid.py:215-220 | a hexagon's list holds exactly the ids of the retained cells among `get_neighbors(row, col)`; cells that were not retained are absent |
| Propagation.NeighborListsSymmetric | honeycomb/hexagon_grid.py:215-220 | on a lattice, j is in i's list exactly when i is in j's |
| Propagation.RowVisits | honeycomb/hexagon_grid.py:226 | one visit per entry of the owner's list |
| Propagation.Visits | honeycomb/hexagon_grid.py:224-226 | definition: hexagon by hexagon, one visit per entry of its neighbour list |
| Propagation.Propose | honeycomb/hexagon_grid.py:228-240 | definition: the branches on `star` and `nstar` applied to `updates` for one visit |
| Propagation.Fold | honeycomb/hexagon_grid.py:223-240 | definition: the proposals of all visits in order, every one reading the snapshot; FoldClosedForm and OrderIndependent state what it yields |
| Propagation.VisitsSpec | honeycomb/hexagon_grid.py:224-226 | the proposal loop visits (i, k) exactly when k is in hexagon i's list |
| Propagation.FoldSnoc | honeycomb/hexagon_grid.py:224-240 | one more visit applies the source's branches for the owner's and the neighbour's snapshot ratings |
| Propagation.VisitsSnoc | honeycomb/hexagon_grid.py:224-226 | the visits of the first i+1 hexagons are those of the first i followed by hexagon i's |
| Propagation.ComputeUpdates | honeycomb/hexagon_grid.py:223-240 | the nested loop over the snapshot `hex_info` produces `Fold(snapshot, visits)` |
| Propagation.ReceivesSnoc | honeycomb/hexagon_grid.py:226-227 | after one more visit, j has a neighbour rated `level` when it did before or the new visit brings one |
| Propagation.ReceivesSnocInvalid | honeycomb/hexagon_grid.py:226-227 | a visit naming no hexagon changes nothing |
| Propagation.FoldKeysInRange | honeycomb/hexagon_grid.py:223-240 | every key of `updates` is a hexagon id |
| Propagation.FoldClosedForm | honeycomb/hexagon_grid.py:222-240 | `updates[j]` is a function of j's snapshot rating and whether some visiting owner is rated 4 or 3. The unconditional `= 3` never competes with a guarded max, because every proposal for j comes from the same `nstar` case |
| Propagation.UpdatedKeys | backend/hexagon_grid.py:223-247 | the updated hexagons are exactly those that received a proposal |
| Propagation.ReceivesSameVisits | honeycomb/hexagon_grid.py:224-226 | whether a neighbour rated `level` visits depends only on the set of visits |
| Propagation.SameProposals | honeycomb/hexagon_grid.py:222-240 | two visit orders with the same visits give the same proposal for every hexagon |
| Propagation.OrderIndependent | honeycomb/hexagon_grid.py:222-244 | the `updates` dictionary does not depend on the order of the visits |
| Propagation.ApplyAll | honeycomb/hexagon_grid.py:242-243 | the write phase keeps the number of hexagons |
| Propagation.ApplyUpdates | backend/hexagon_grid.py:245-246 | the `.loc` loop overwrites exactly the updated ids and nothing else |
| Propagation.ApplyNeighborInfluence | backend/hexagon_grid.py:196-247 | the ratings array becomes `Propagated(cells, old ratings)` |
| Propagation.VisitedByNeighbors | backend/hexagon_grid.py:215-227 | j is visited by an owner rated `level` exactly when j's own neighbour list holds a hexagon rated `level` |
| Propagation.Propagated | honeycomb/hexagon_grid.py:200-244 | definition: the snapshot with the folded `updates` written over it; ApplyNeighborInfluence is proved to compute it |
| Propagation.FinalRating | honeycomb/hexagon_grid.py:228-240 | definition: the rating one hexagon ends with, given its snapshot rating and whether a neighbour is rated 4 and whether one is rated 3; PropagatedClosedForm proves Propagated equals it |
| Propagation.PropagatedClosedForm | honeycomb/hexagon_grid.py:200-244 | from a snapshot rating of 0: 2 with a 4-star neighbour, else 1 with a 3-star neighbour. From 1: 2 with a 3- or 4-star neighbour. From 2: 3 with a 4-star neighbour. Otherwise unchanged |
| Propagation.PropagationRaises | backend/hexagon_grid.py:223-246 | ratings never decrease; every updated hexagon rises strictly, to at most 3; the others keep their classifier rating |
| HexagonInfluence.TargetsOrDefault | honeycomb/hexagon_grid.py:76-77 | definition: the six default districts when no target list is given |
| HexagonInfluence.ChooseMode | honeycomb/hexagon_grid.py:86 | definition: the boundary mode when the load returned a non-empty set of polygons, the data-extent mode otherwise |
| HexagonInfluence.ModeFromFile | honeycomb/hexagon_grid.py:76-86 | the boundary mode is used exactly when the file loads and a selected feature has a ring; the default district list applies when none is given |
| HexagonInfluence.Extent | honeycomb/hexagon_grid.py:98-104 | definition: `None` for no points, otherwise the running min and max of the positions; ExtentSpec states its meaning |
| HexagonInfluence.ExtentSpec | honeycomb/hexagon_grid.py:97-104 | the data extent is None for no events; otherwise it encloses every point and each side is attained |
| HexagonInfluence.DataExtentBox | honeycomb/hexagon_grid.py:98-104 | the min/max loop computes `Extent(points)` |
| HexagonInfluence.GridBox | honeycomb/hexagon_grid.py:86-110 | definition: the region's bounds or the data extent, widened by the margin; `None` when there is no extent |
| HexagonInfluence.Lattice | honeycomb/hexagon_grid.py:114-158 | definition: the retained cells of the grid laid out in the box, or `None` when no grid can be laid out |
| HexagonInfluence.Ratings | honeycomb/hexagon_grid.py:198 | there is one classifier rating per hexagon |
| HexagonInfluence.Rows | honeycomb/hexagon_grid.py:153-158 | there is one result row per retained cell |
| HexagonInfluence.ComputeBox | honeycomb/hexagon_grid.py:86-109 | the two branches of `if beijing_poly:` give the boundary or data extent, widened by 5000 |
| HexagonInfluence.RateLattice | backend/hexagon_grid.py:147-179 | join, statistics, ratings and neighbour influence over the lattice give `Rows(cells, events)` |
| HexagonInfluence.Influence | honeycomb/hexagon_grid.py:71-259 | definition: `None` when no grid is laid out or the lattice is empty (the empty `GeoDataFrame` raises at line 163), otherwise the rows over the lattice |
| HexagonInfluence.CalculateHexagonInfluence | honeycomb/hexagon_grid.py:71-259 | the pipeline returns `Influence(...)` of its inputs, including `None` for an empty lattice |
| HexagonInfluence.GridCellsWellFormed | backend/hexagon_grid.py:104-135 | the lattice's cells are unique and non-negative |
| HexagonInfluence.LatticeLaidOut | honeycomb/hexagon_grid.py:96-121 | a grid is laid out exactly when the boundary mode is used or there are events (`int(-inf)` raises otherwise), and the hex size is not 0 (division by zero) |
| HexagonInfluence.InfluenceFails | honeycomb/hexagon_grid.py:96-163 | there is no result exactly when the data-extent mode has no events, the hex size is 0, or the laid-out lattice retains no candidate (the empty `GeoDataFrame` raises) |
| HexagonInfluence.InfluenceRow | honeycomb/hexagon_grid.py:126-244 | whenever there is a result it has one row per retained cell, at least one, and row i has id i, the i-th retained cell, the statistics of its events, and the closed-form rating over its own neighbours' classifier ratings |
| HexagonInfluence.InfluenceRatingsInRange | honeycomb/hexagon_grid.py:191-244 | with non-negative severities every final rating is in 0..4 |
| HexagonInfluence.DataExtentKeepsAll | honeycomb/hexagon_grid.py:142 | without a boundary every one of num_cols · num_rows candidates is kept, and with events and a positive hex size there is a result |
| HexagonInfluence.FallbackAsWritten | honeycomb/hexagon_grid.py:142 | definition: the data-extent grid dimensions, or `None` as soon as the grid has a candidate, because the first retention test raises `NameError` |
| HexagonInfluence.FallbackAsWrittenFails | honeycomb/hexagon_grid.py:142 | as written, the data-extent branch with events and a positive size returns `None`, although the intended pipeline yields a grid |
| DataLoader.OnOrAfter | backend/data_loader.py:43-44 | definition: the rows dated on or after the start, in frame order |
| DataLoader.OnOrBefore | backend/data_loader.py:45-46 | definition: the rows dated on or before the end, in frame order |
| DataLoader.FilterByDate | backend/data_loader.py:41-47 | definition: the start filter when a start is given, then the end filter when an end is given |
| DataLoader.OnOrAfterIsRange | backend/data_loader.py:43-44 | the start filter is the range filter without an end |
| DataLoader.OnOrBeforeOfRange | backend/data_loader.py:45-46 | the end filter applied after the start filter is the range filter with both bounds |
| DataLoader.NoBoundsKeepsAll | backend/data_loader.py:41-47 | the range filter without bounds keeps every row |
| DataLoader.FilterIsRangeFilter | backend/data_loader.py:41-47 | the two filters in sequence equal one inclusive range filter |
| DataLoader.FilterWithoutBounds | backend/data_loader.py:41-47 | with neither bound, the frame is returned unchanged |
| DataLoader.RowsInRangeMembership | backend/data_loader.py:43-46 | the range filter keeps exactly the in-range rows |
| DataLoader.FilterMembership | backend/data_loader.py:43-46 | a row is kept exactly when it was in the frame and start ≤ date ≤ end for each given bound |
| DataLoader.RowsInRangeSubsequence | backend/data_loader.py:43-46 | the range filter returns a subsequence |
| DataLoader.SubsequenceOfLonger | backend/data_loader.py:43-46 | a subsequence stays one when a row is appended to the longer sequence |
| DataLoader.SubsequenceDropLast | backend/data_loader.py:43-46 | dropping the subsequence's last row keeps it a subsequence |
| DataLoader.FilterKeepsOrder | backend/data_loader.py:43-46 | the output is an order-preserving subsequence of the input |
| DataLoader.RowsInRangeIdempotent | backend/data_loader.py:41-47 | the range filter is idempotent |
| DataLoader.FilterIdempotent | backend/data_loader.py:41-47 | filtering twice with the same bounds equals filtering once |
| DataLoader.FilterOneDay | tests/test_data_loader.py:31-35 | on the three-day data, filtering 2023-01-02..2023-01-02 keeps one row, with severity 2 |
| Config.JoinPath | config.py:5-7 | definition: POSIX `os.path.join` of two parts; JoinPathSpec states its meaning |
| Config.DefaultConfig | config.py:4-12 | definition: the seven default entries, with paths under the working directory and a hex size of 500 |
| Config.JoinPathSpec | config.py:5-7 | POSIX `os.path.join`: an absolute second part replaces the first; otherwise the first part is a prefix, the second a suffix, and one separator is added unless the first already ends with one |
| Config.Chosen | config.py:18-23 | definition: the argument when it is truthy (neither None nor ""), else the default |
| Config.LoadConfig | config.py:14-27 | the key set is `DEFAULT_CONFIG`'s. input_file, output_dir, boundary_file and hex_size take the argument exactly when it is truthy, else the default, so a hex_size of 0 or None keeps 500. target_districts, amap_tiles and amap_attr are always the defaults |

## Findings

| source | as written | input that shows it | evidently intended | confidence | as-written member | corrected member |
|---|---|---|---|---|---|---|
| honeycomb/hexagon_grid.py:142 | the retention test reads `beijing_utm`, which is bound only when a boundary was loaded, so the data-extent fallback raises on its first candidate and returns `None` (likewise backend/hexagon_grid.py:120) | no boundary, one event, hex size 500 | keep every candidate (`beijing_utm is None`) | not executed | HexagonInfluence.FallbackAsWrittenFails | HexagonInfluence.DataExtentKeepsAll |

## Left out

- Missing imports: `math` in both copies (honeycomb/hexagon_grid.py:116, backend/hexagon_grid.py:94). Also `os` and `load_json_file` in honeycomb/hexagon_grid.py, and `Polygon`, `unary_union` and `transform` in backend/hexagon_grid.py. As written, each copy raises before producing a grid. The model treats these names as available.
- Projection between WGS84 and EPSG:32650 (pyproj): a foreign library with floating-point numerics. Projected bounds and positions are inputs.
- The hexagon vertices (`create_pointy_top_hexagon`), centres and centroids: floating-point geometry that ids, statistics and ratings do not read.
- Floating-point spacing in GridDims: the model divides exact reals. Near an integer quotient the source's rounded `(max_x - min_x) / horizontal_spacing` can truncate to one less (or one more) than the exact value. A column or row more or less shifts every later `hex_id`.
- Shapely and geopandas:
  - `contains` is an input predicate on (col, row); `unary_union` and its bounds are an input `Region`;
  - `Polygon` validation (for example, too few coordinates) is not modelled;
  - the `within` join is an input hex id per event. An event on the boundary of a hexagon lies `within` none, so the source drops it, and only overlap from floating-point vertices could join an event twice. The model does not derive the hex id from a position: an event the source drops is one whose hex id here is `None`, and no event is joined twice.
- The zero-fill `else` branch (honeycomb/hexagon_grid.py:245-248, backend/hexagon_grid.py:180-183) has no model. It runs only for an empty lattice, and an empty lattice already fails at line 163: `gpd.GeoDataFrame([], geometry='geometry', ...)` has no `geometry` column to set. The model takes that geopandas behaviour as given and yields `None` (HexagonInfluence.Influence).
- Aggregation.MaxLevel: `max` on the severity column follows pandas only for integer severities. Missing values are dropped on load.
- Classifier.StarRating: the `pd.isna` branch is unreachable after the zero fill, so it is left out.
- Boundary.LoadBoundary:
  - a feature without `properties` raises a KeyError when the target list is non-empty, and this is not modelled;
  - a null `geometry` or one without a `type` raises at honeycomb/hexagon_grid.py:52-53, so the source returns `None`; a `Feature` always has a geometry with a type, so this is not modelled;
  - file reading, JSON parsing and the existence check become `Option<seq<Feature>>`, where `None` stands for a missing, unreadable or empty file.
- DataLoader.FilterByDate: parsing a bound with `pd.to_datetime` is not modelled. A bound is either absent, which covers None and "", or an already-parsed date.
- Config.LoadConfig: the working directory is a parameter. The path join is the POSIX one.
- Rendering (folium maps, the matplotlib image, the time-slider page), Excel I/O and `read_weibo_excel`, logging, command-line parsing and orchestration: these are output, I/O and user interface, not engine logic.
