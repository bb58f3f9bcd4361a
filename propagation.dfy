/**
 * One round of neighbour influence: `apply_neighbor_influence` in backend/hexagon_grid.py
 * and the identical inline block of `calculate_hexagon_influence` in
 * honeycomb/hexagon_grid.py.
 *
 * Hexagons are identified by position: the lattice hands out ids 0..n-1 in order, so the
 * hexagon with id i is `cells[i]` and its rating is `stars[i]`.
 */
module Propagation {
  import opened Wrappers
  import opened HexNeighbors

  // ---------------------------------------------------------------------------
  // row_col_to_id

  /** The dictionary `row_col_to_id` after inserting every hexagon in order (a later entry wins). */
  function IndexOf(cells: seq<Cell>): map<Cell, nat> {
    if cells == [] then map[]
    else IndexOf(cells[..|cells| - 1])[cells[|cells| - 1] := |cells| - 1]
  }

  /** The keys are the hexagons' cells, and each maps to a hexagon at that cell. */
  lemma {:induction false} IndexOfSpec(cells: seq<Cell>)
    ensures forall c :: c in IndexOf(cells) <==> c in cells
    ensures forall c :: c in IndexOf(cells) ==> IndexOf(cells)[c] < |cells| && cells[IndexOf(cells)[c]] == c
  {
    if cells != [] {
      var init := cells[..|cells| - 1];
      IndexOfSpec(init);
      assert cells == init + [cells[|cells| - 1]];
    }
  }

  predicate Unique(cells: seq<Cell>) {
    forall i, j :: 0 <= i < |cells| && 0 <= j < |cells| && cells[i] == cells[j] ==> i == j
  }

  /** With unique cells the dictionary is the inverse of the id assignment. */
  lemma IndexOfUnique(cells: seq<Cell>)
    requires Unique(cells)
    ensures forall i :: 0 <= i < |cells| ==> cells[i] in IndexOf(cells) && IndexOf(cells)[cells[i]] == i
  {
    IndexOfSpec(cells);
    forall i | 0 <= i < |cells| ensures cells[i] in IndexOf(cells) && IndexOf(cells)[cells[i]] == i {
      assert cells[i] in cells;
    }
  }

  /** The first `iterrows` loop. */
  method BuildIndex(cells: seq<Cell>) returns (rowColToId: map<Cell, nat>)
    ensures rowColToId == IndexOf(cells)
  {
    rowColToId := map[];
    for i := 0 to |cells|
      invariant rowColToId == IndexOf(cells[..i])
    {
      assert cells[..i + 1][..i] == cells[..i];
      rowColToId := rowColToId[cells[i] := i];
    }
    assert cells[..|cells|] == cells;
  }

  // ---------------------------------------------------------------------------
  // hex_info[...]['neighbors']

  /** The ids of those cells of `cs` that are keys of `index`, in order. */
  function LookupAll(cs: seq<Cell>, index: map<Cell, nat>): seq<nat> {
    if cs == [] then []
    else LookupAll(cs[..|cs| - 1], index) + (if cs[|cs| - 1] in index then [index[cs[|cs| - 1]]] else [])
  }

  lemma {:induction false} LookupAllSpec(cs: seq<Cell>, index: map<Cell, nat>)
    ensures forall k :: k in LookupAll(cs, index) <==> exists c :: c in cs && c in index && index[c] == k
  {
    if cs != [] {
      var init, last := cs[..|cs| - 1], cs[|cs| - 1];
      LookupAllSpec(init, index);
      assert cs == init + [last];
      forall k ensures k in LookupAll(cs, index) <==> exists c :: c in cs && c in index && index[c] == k {
        if exists c :: c in init && c in index && index[c] == k {
          var c :| c in init && c in index && index[c] == k;
          assert c in cs;
        }
        if exists c :: c in cs && c in index && index[c] == k {
          var c :| c in cs && c in index && index[c] == k;
          if c != last { assert c in init; }
        }
      }
    }
  }

  /** The neighbour list of every hexagon: ids of the retained cells among `get_neighbors`. */
  function NeighborLists(cells: seq<Cell>): (lists: seq<seq<nat>>)
    ensures |lists| == |cells|
  {
    var index := IndexOf(cells);
    seq(|cells|, i requires 0 <= i < |cells| => LookupAll(Neighbors(cells[i]), index))
  }

  /** The second and third `iterrows` loops: `hex_info` with its neighbour lists. */
  method BuildNeighborLists(cells: seq<Cell>) returns (neighbors: seq<seq<nat>>)
    ensures neighbors == NeighborLists(cells)
  {
    var rowColToId := BuildIndex(cells);
    neighbors := [];
    for i := 0 to |cells|
      invariant neighbors == NeighborLists(cells)[..i]
    {
      var candidates := GetNeighbors(cells[i]);
      var list: seq<nat> := [];
      for k := 0 to |candidates|
        invariant list == LookupAll(candidates[..k], rowColToId)
      {
        assert candidates[..k + 1][..k] == candidates[..k];
        if candidates[k] in rowColToId {
          list := list + [rowColToId[candidates[k]]];
        }
      }
      assert candidates[..|candidates|] == candidates;
      neighbors := neighbors + [list];
    }
  }

  lemma {:induction false} LookupAllBelow(cs: seq<Cell>, index: map<Cell, nat>, n: nat)
    requires forall c :: c in index ==> index[c] < n
    ensures forall k :: 0 <= k < |LookupAll(cs, index)| ==> LookupAll(cs, index)[k] < n
  {
    if cs != [] {
      LookupAllBelow(cs[..|cs| - 1], index, n);
    }
  }

  /** Every stored neighbour id is the id of a hexagon. */
  lemma NeighborListsInRange(cells: seq<Cell>)
    ensures forall i, k :: 0 <= i < |cells| && 0 <= k < |NeighborLists(cells)[i]| ==> NeighborLists(cells)[i][k] < |cells|
  {
    IndexOfSpec(cells);
    forall i | 0 <= i < |cells| ensures forall k :: 0 <= k < |NeighborLists(cells)[i]| ==> NeighborLists(cells)[i][k] < |cells| {
      LookupAllBelow(Neighbors(cells[i]), IndexOf(cells), |cells|);
    }
  }

  /** Looking up cells in `row_col_to_id` yields ids of hexagons at those cells, and misses none. */
  lemma LookupInIndex(cells: seq<Cell>, cs: seq<Cell>)
    ensures forall k :: k in LookupAll(cs, IndexOf(cells)) ==> k < |cells| && cells[k] in cs
    ensures forall c :: c in cs && c in cells ==> c in IndexOf(cells) && IndexOf(cells)[c] in LookupAll(cs, IndexOf(cells))
  {
    var index := IndexOf(cells);
    IndexOfSpec(cells);
    LookupAllSpec(cs, index);
    forall k | k in LookupAll(cs, index) ensures k < |cells| && cells[k] in cs {
      var c :| c in cs && c in index && index[c] == k;
    }
    forall c | c in cs && c in cells ensures c in index && index[c] in LookupAll(cs, index) {
      assert c in index;
    }
  }

  /**
   * Every stored neighbour id names a hexagon whose cell is among `get_neighbors` of the
   * owner, and every retained cell among them is stored.
   */
  lemma NeighborListsSpec(cells: seq<Cell>, i: nat)
    requires i < |cells|
    ensures forall k :: k in NeighborLists(cells)[i] ==> k < |cells| && cells[k] in Neighbors(cells[i])
    ensures forall c :: c in Neighbors(cells[i]) && c in cells ==> c in IndexOf(cells) && IndexOf(cells)[c] in NeighborLists(cells)[i]
  {
    var ns := Neighbors(cells[i]);
    assert NeighborLists(cells)[i] == LookupAll(ns, IndexOf(cells));
    LookupInIndex(cells, ns);
  }

  /** On unique, non-negative cells the neighbour lists are symmetric. */
  lemma NeighborListsSymmetric(cells: seq<Cell>, i: nat, j: nat)
    requires Unique(cells) && forall k :: 0 <= k < |cells| ==> NonNegative(cells[k])
    requires i < |cells| && j < |cells|
    ensures j in NeighborLists(cells)[i] <==> i in NeighborLists(cells)[j]
  {
    NeighborListsSpec(cells, i);
    NeighborListsSpec(cells, j);
    IndexOfUnique(cells);
    if j in NeighborLists(cells)[i] {
      NeighborsSymmetric(cells[i], cells[j]);
      assert cells[i] in cells;
    }
    if i in NeighborLists(cells)[j] {
      NeighborsSymmetric(cells[j], cells[i]);
      assert cells[j] in cells;
    }
  }

  // ---------------------------------------------------------------------------
  // updates

  /** A visited (hexagon, neighbour) pair of the proposal loop. */
  type Visit = (nat, nat)

  /** The pairs of hexagon `i` with each entry of its neighbour list. */
  function RowVisits(i: nat, row: seq<nat>): (vs: seq<Visit>)
    ensures |vs| == |row|
  {
    seq(|row|, k requires 0 <= k < |row| => (i, row[k]))
  }

  /** All pairs, hexagon by hexagon, neighbour by neighbour: the order of the nested loop. */
  function Visits(lists: seq<seq<nat>>): seq<Visit> {
    if lists == [] then []
    else Visits(lists[..|lists| - 1]) + RowVisits(|lists| - 1, lists[|lists| - 1])
  }

  lemma {:induction false} VisitsSpec(lists: seq<seq<nat>>)
    ensures forall v :: v in Visits(lists) <==> v.0 < |lists| && v.1 in lists[v.0]
  {
    if lists != [] {
      var n := |lists|;
      VisitsSpec(lists[..n - 1]);
      forall v: Visit ensures v in Visits(lists) <==> v.0 < n && v.1 in lists[v.0] {
        if v in RowVisits(n - 1, lists[n - 1]) {
          var k :| 0 <= k < |lists[n - 1]| && RowVisits(n - 1, lists[n - 1])[k] == v;
        }
        if v.0 == n - 1 && v.1 in lists[v.0] {
          var k :| 0 <= k < |lists[n - 1]| && lists[n - 1][k] == v.1;
          assert RowVisits(n - 1, lists[n - 1])[k] == v;
        }
      }
    }
  }

  /** One step of the proposal loop: hexagon with rating `star` visits neighbour `nid` with rating `nstar`. */
  function Propose(updates: map<nat, int>, star: int, nstar: int, nid: nat): map<nat, int> {
    if star == 4 then
      if nstar == 0 || nstar == 1 then
        if nid !in updates || updates[nid] < 2 then updates[nid := 2] else updates
      else if nstar == 2 then updates[nid := 3]
      else updates
    else if star == 3 then
      if nstar == 0 then
        if nid !in updates || updates[nid] < 1 then updates[nid := 1] else updates
      else if nstar == 1 then
        if nid !in updates || updates[nid] < 2 then updates[nid := 2] else updates
      else updates
    else updates
  }

  /**
   * The `updates` dictionary after visiting `visits` in order, reading ratings from the
   * snapshot. A visit naming no hexagon (which the neighbour lists never hold) changes nothing.
   */
  function Fold(snapshot: seq<int>, visits: seq<Visit>): map<nat, int> {
    if visits == [] then map[]
    else
      var v := visits[|visits| - 1];
      var before := Fold(snapshot, visits[..|visits| - 1]);
      if v.0 < |snapshot| && v.1 < |snapshot| then Propose(before, snapshot[v.0], snapshot[v.1], v.1) else before
  }

  lemma FoldSnoc(snapshot: seq<int>, visits: seq<Visit>, v: Visit)
    requires v.0 < |snapshot| && v.1 < |snapshot|
    ensures Fold(snapshot, visits + [v]) == Propose(Fold(snapshot, visits), snapshot[v.0], snapshot[v.1], v.1)
  {
    assert (visits + [v])[..|visits|] == visits;
  }

  lemma VisitsSnoc(lists: seq<seq<nat>>, i: nat)
    requires i < |lists|
    ensures Visits(lists[..i + 1]) == Visits(lists[..i]) + RowVisits(i, lists[i])
  {
    assert lists[..i + 1][..i] == lists[..i];
  }

  /** The nested proposal loop, reading the snapshot and writing only `updates`. */
  method ComputeUpdates(snapshot: seq<int>, lists: seq<seq<nat>>) returns (updates: map<nat, int>)
    requires |lists| == |snapshot|
    requires forall i, k :: 0 <= i < |lists| && 0 <= k < |lists[i]| ==> lists[i][k] < |snapshot|
    ensures updates == Fold(snapshot, Visits(lists))
  {
    updates := map[];
    for i := 0 to |lists|
      invariant updates == Fold(snapshot, Visits(lists[..i]))
    {
      VisitsSnoc(lists, i);
      ghost var before := Visits(lists[..i]);
      var star := snapshot[i];
      var row := lists[i];
      assert before + RowVisits(i, row[..0]) == before;
      for k := 0 to |row|
        invariant updates == Fold(snapshot, before + RowVisits(i, row[..k]))
      {
        var neighborId := row[k];
        var nstar := snapshot[neighborId];
        FoldSnoc(snapshot, before + RowVisits(i, row[..k]), (i, neighborId));
        assert before + RowVisits(i, row[..k + 1]) == before + RowVisits(i, row[..k]) + [(i, neighborId)];
        if star == 4 {
          if nstar == 0 || nstar == 1 {
            if neighborId !in updates || updates[neighborId] < 2 {
              updates := updates[neighborId := 2];
            }
          } else if nstar == 2 {
            updates := updates[neighborId := 3];
          }
        } else if star == 3 {
          if nstar == 0 {
            if neighborId !in updates || updates[neighborId] < 1 {
              updates := updates[neighborId := 1];
            }
          } else if nstar == 1 {
            if neighborId !in updates || updates[neighborId] < 2 {
              updates := updates[neighborId := 2];
            }
          }
        }
      }
      assert row[..|row|] == row;
    }
    assert lists[..|lists|] == lists;
  }

  // ---------------------------------------------------------------------------
  // Closed form

  /** Some visit proposes to neighbour `j` from a hexagon whose snapshot rating is `level`. */
  predicate Receives(snapshot: seq<int>, visits: seq<Visit>, j: nat, level: int) {
    exists v :: v in visits && v.1 == j && v.0 < |snapshot| && snapshot[v.0] == level
  }

  /**
   * The pending proposal for a hexagon, from its own snapshot rating and whether a
   * four-star or a three-star hexagon visited it. Only the neighbour's snapshot rating
   * selects the branch, so all proposals for one hexagon come from the same row of this
   * table, and the unconditional `= 3` never meets a guarded maximum.
   */
  function Proposal(nstar: int, from4: bool, from3: bool): Option<int> {
    if nstar == 0 then (if from4 then Some(2) else if from3 then Some(1) else None)
    else if nstar == 1 then (if from4 || from3 then Some(2) else None)
    else if nstar == 2 then (if from4 then Some(3) else None)
    else None
  }

  function ProposalFor(snapshot: seq<int>, visits: seq<Visit>, j: nat): Option<int>
    requires j < |snapshot|
  {
    Proposal(snapshot[j], Receives(snapshot, visits, j, 4), Receives(snapshot, visits, j, 3))
  }

  predicate Agrees(updates: map<nat, int>, j: nat, p: Option<int>) {
    (j in updates <==> p.Some?) && (j in updates ==> updates[j] == p.value)
  }

  lemma ReceivesSnoc(snapshot: seq<int>, visits: seq<Visit>, v: Visit, j: nat, level: int)
    requires v.0 < |snapshot|
    ensures Receives(snapshot, visits + [v], j, level) <==>
      Receives(snapshot, visits, j, level) || (v.1 == j && snapshot[v.0] == level)
  {
    if Receives(snapshot, visits, j, level) {
      var w :| w in visits && w.1 == j && w.0 < |snapshot| && snapshot[w.0] == level;
      assert w in visits + [v];
    }
    if v.1 == j && snapshot[v.0] == level {
      assert v in visits + [v];
    }
  }

  /** Only hexagons are ever keys of `updates`. */
  lemma {:induction false} FoldKeysInRange(snapshot: seq<int>, visits: seq<Visit>)
    ensures forall j :: j in Fold(snapshot, visits) ==> j < |snapshot|
  {
    if visits != [] {
      FoldKeysInRange(snapshot, visits[..|visits| - 1]);
    }
  }

  /**
   * The fold has a closed form: hexagon j has an update exactly when the table gives it a
   * proposal, and the update is that proposal, whatever the visits before or after.
   */
  lemma {:induction false} FoldClosedForm(snapshot: seq<int>, visits: seq<Visit>, j: nat)
    requires j < |snapshot|
    ensures Agrees(Fold(snapshot, visits), j, ProposalFor(snapshot, visits, j))
  {
    if visits != [] {
      var init, v := visits[..|visits| - 1], visits[|visits| - 1];
      assert visits == init + [v];
      FoldClosedForm(snapshot, init, j);
      if v.0 < |snapshot| && v.1 < |snapshot| {
        ReceivesSnoc(snapshot, init, v, j, 4);
        ReceivesSnoc(snapshot, init, v, j, 3);
      } else {
        ReceivesSnocInvalid(snapshot, init, v, j, 4);
        ReceivesSnocInvalid(snapshot, init, v, j, 3);
      }
    }
  }

  lemma ReceivesSnocInvalid(snapshot: seq<int>, visits: seq<Visit>, v: Visit, j: nat, level: int)
    requires j < |snapshot| && !(v.0 < |snapshot| && v.1 < |snapshot|)
    ensures Receives(snapshot, visits + [v], j, level) <==> Receives(snapshot, visits, j, level)
  {
    if Receives(snapshot, visits, j, level) {
      var w :| w in visits && w.1 == j && w.0 < |snapshot| && snapshot[w.0] == level;
      assert w in visits + [v];
    }
  }

  /** The updated hexagons are exactly those the table gives a proposal: `len(updates)` counts them. */
  lemma UpdatedKeys(snapshot: seq<int>, visits: seq<Visit>)
    ensures Fold(snapshot, visits).Keys == set j | 0 <= j < |snapshot| && ProposalFor(snapshot, visits, j).Some?
  {
    FoldKeysInRange(snapshot, visits);
    forall j | 0 <= j < |snapshot| {
      FoldClosedForm(snapshot, visits, j);
    }
  }

  lemma ReceivesSameVisits(snapshot: seq<int>, visits: seq<Visit>, reordered: seq<Visit>, j: nat, level: int)
    requires forall v :: v in visits <==> v in reordered
    ensures Receives(snapshot, visits, j, level) == Receives(snapshot, reordered, j, level)
  {
    if Receives(snapshot, visits, j, level) {
      var v :| v in visits && v.1 == j && v.0 < |snapshot| && snapshot[v.0] == level;
      assert v in reordered;
    }
    if Receives(snapshot, reordered, j, level) {
      var v :| v in reordered && v.1 == j && v.0 < |snapshot| && snapshot[v.0] == level;
      assert v in visits;
    }
  }

  lemma SameProposals(snapshot: seq<int>, visits: seq<Visit>, reordered: seq<Visit>, j: nat)
    requires forall v :: v in visits <==> v in reordered
    requires j < |snapshot|
    ensures Agrees(Fold(snapshot, visits), j, ProposalFor(snapshot, reordered, j))
    ensures Agrees(Fold(snapshot, reordered), j, ProposalFor(snapshot, reordered, j))
  {
    FoldClosedForm(snapshot, visits, j);
    FoldClosedForm(snapshot, reordered, j);
    ReceivesSameVisits(snapshot, visits, reordered, j, 4);
    ReceivesSameVisits(snapshot, visits, reordered, j, 3);
  }

  /** The outcome does not depend on the order in which hexagons and neighbours are visited. */
  lemma OrderIndependent(snapshot: seq<int>, visits: seq<Visit>, reordered: seq<Visit>)
    requires forall v :: v in visits <==> v in reordered
    ensures Fold(snapshot, visits) == Fold(snapshot, reordered)
  {
    FoldKeysInRange(snapshot, visits);
    FoldKeysInRange(snapshot, reordered);
    var a, b := Fold(snapshot, visits), Fold(snapshot, reordered);
    forall j | j in a ensures j in b && a[j] == b[j] {
      SameProposals(snapshot, visits, reordered, j);
    }
    forall j | j in b ensures j in a {
      SameProposals(snapshot, visits, reordered, j);
    }
    assert a.Keys == b.Keys;
  }

  // ---------------------------------------------------------------------------
  // Applying the updates

  /** The ratings after writing every pending update (ids without a hexagon match no row). */
  function ApplyAll(stars: seq<int>, updates: map<nat, int>): (r: seq<int>)
    ensures |r| == |stars|
  {
    seq(|stars|, j requires 0 <= j < |stars| => if j in updates then updates[j] else stars[j])
  }

  /** The final loop `hex_gdf.loc[hex_gdf['hex_id'] == hex_id, 'star_rating'] = new_star`. */
  method ApplyUpdates(stars: array<int>, updates: map<nat, int>)
    modifies stars
    ensures stars[..] == ApplyAll(old(stars[..]), updates)
  {
    var pending := updates.Keys;
    while pending != {}
      invariant pending <= updates.Keys
      invariant forall j :: 0 <= j < stars.Length ==>
        stars[j] == if j in updates && j !in pending then updates[j] else old(stars[j])
      decreases pending
    {
      var hexId :| hexId in pending;
      if hexId < stars.Length {
        stars[hexId] := updates[hexId];
      }
      pending := pending - {hexId};
    }
  }

  /** The ratings after one round of neighbour influence on a snapshot. */
  ghost function Propagated(cells: seq<Cell>, snapshot: seq<int>): seq<int> {
    ApplyAll(snapshot, Fold(snapshot, Visits(NeighborLists(cells))))
  }

  /** `apply_neighbor_influence(hex_gdf)`: snapshot, proposals, then one write phase. */
  method ApplyNeighborInfluence(cells: seq<Cell>, stars: array<int>)
    requires |cells| == stars.Length
    modifies stars
    ensures stars[..] == Propagated(cells, old(stars[..]))
  {
    var lists := BuildNeighborLists(cells);
    NeighborListsInRange(cells);
    var snapshot := stars[..];
    var updates := ComputeUpdates(snapshot, lists);
    ApplyUpdates(stars, updates);
  }

  // ---------------------------------------------------------------------------
  // What the round promises

  /** Some neighbour in the hexagon's own neighbour list has snapshot rating `level`. */
  predicate NeighborRated(cells: seq<Cell>, snapshot: seq<int>, j: nat, level: int)
    requires j < |cells|
  {
    exists k :: k in NeighborLists(cells)[j] && k < |snapshot| && snapshot[k] == level
  }

  /**
   * The closed form as a table on the hexagon's own rating:
   * 0 with a four-star neighbour becomes 2; 0 with a three-star but no four-star neighbour
   * becomes 1; 1 with a three- or four-star neighbour becomes 2; 2 with a four-star
   * neighbour becomes 3; everything else is unchanged.
   */
  function FinalRating(star: int, near4: bool, near3: bool): int {
    if star == 0 && near4 then 2
    else if star == 0 && near3 then 1
    else if star == 1 && (near4 || near3) then 2
    else if star == 2 && near4 then 3
    else star
  }

  /** A visit to j from hexagon i happens exactly when i is in j's own neighbour list. */
  lemma VisitedByNeighbors(cells: seq<Cell>, snapshot: seq<int>, j: nat, level: int)
    requires |cells| == |snapshot| && j < |cells|
    requires Unique(cells) && forall k :: 0 <= k < |cells| ==> NonNegative(cells[k])
    ensures Receives(snapshot, Visits(NeighborLists(cells)), j, level) <==> NeighborRated(cells, snapshot, j, level)
  {
    var lists := NeighborLists(cells);
    VisitsSpec(lists);
    if Receives(snapshot, Visits(lists), j, level) {
      var v :| v in Visits(lists) && v.1 == j && v.0 < |snapshot| && snapshot[v.0] == level;
      NeighborListsSymmetric(cells, v.0, j);
    }
    if NeighborRated(cells, snapshot, j, level) {
      var k :| k in lists[j] && k < |snapshot| && snapshot[k] == level;
      NeighborListsSpec(cells, j);
      NeighborListsSymmetric(cells, k, j);
      assert (k, j) in Visits(lists);
    }
  }

  /**
   * On a lattice (unique, non-negative cells) each hexagon's final rating is the table
   * applied to its own snapshot rating and the snapshot ratings of its own neighbours.
   * No hexagon raised in this round raises another.
   */
  lemma PropagatedClosedForm(cells: seq<Cell>, snapshot: seq<int>, j: nat)
    requires |cells| == |snapshot| && j < |snapshot|
    requires Unique(cells) && forall k :: 0 <= k < |cells| ==> NonNegative(cells[k])
    ensures |Propagated(cells, snapshot)| == |snapshot|
    ensures Propagated(cells, snapshot)[j] ==
      FinalRating(snapshot[j], NeighborRated(cells, snapshot, j, 4), NeighborRated(cells, snapshot, j, 3))
  {
    FoldClosedForm(snapshot, Visits(NeighborLists(cells)), j);
    VisitedByNeighbors(cells, snapshot, j, 4);
    VisitedByNeighbors(cells, snapshot, j, 3);
  }

  /**
   * Ratings never decrease; a hexagon with a pending update is raised strictly, to at most
   * 3; a hexagon without one keeps its classifier rating.
   */
  lemma PropagationRaises(cells: seq<Cell>, snapshot: seq<int>, j: nat)
    requires j < |snapshot|
    ensures |Propagated(cells, snapshot)| == |snapshot|
    ensures Propagated(cells, snapshot)[j] >= snapshot[j]
    ensures j in Fold(snapshot, Visits(NeighborLists(cells))) ==>
      snapshot[j] < Propagated(cells, snapshot)[j] <= 3
    ensures j !in Fold(snapshot, Visits(NeighborLists(cells))) ==>
      Propagated(cells, snapshot)[j] == snapshot[j]
  {
    FoldClosedForm(snapshot, Visits(NeighborLists(cells)), j);
  }
}
