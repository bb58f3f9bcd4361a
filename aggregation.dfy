/**
 * Per-hexagon statistics: the `groupby('hex_id').agg(...)` of the spatial join, the
 * `lv2_plus_lv3` column, the left merge onto the hexagons and the zero fill
 * (honeycomb/hexagon_grid.py and backend/hexagon_grid.py).
 *
 * The spatial join is abstracted: every event carries the id of the hexagon it was joined
 * to, or `None` when it lies in no retained hexagon (`how="inner"` drops it).
 */
module Aggregation {
  import opened Wrappers

  /** One event (a row of the data frame): its severity `影响分类` and the join result. */
  datatype Event = Event(severity: int, hex: Option<nat>)

  /** The aggregation columns of one hexagon. */
  datatype Stats = Stats(maxLevel: int, count: nat, lv2Count: nat, lv3Count: nat, lv2PlusLv3: nat)

  /** The severities of the events joined to hexagon `h`, in event order: one group of the `groupby`. */
  function Matched(events: seq<Event>, h: nat): (sevs: seq<int>)
    ensures |sevs| <= |events|
  {
    if events == [] then []
    else (if events[0].hex == Some(h) then [events[0].severity] else []) + Matched(events[1..], h)
  }

  /** `max` of a group; a hexagon without events is filled with 0. */
  function MaxLevel(sevs: seq<int>): (m: int)
    ensures sevs == [] ==> m == 0
    ensures sevs != [] ==> m in sevs && forall v :: v in sevs ==> v <= m
  {
    if |sevs| == 0 then 0
    else if |sevs| == 1 then sevs[0]
    else
      var rest := MaxLevel(sevs[1..]);
      assert forall v :: v in sevs ==> v == sevs[0] || v in sevs[1..];
      if sevs[0] >= rest then sevs[0] else rest
  }

  /** `(s == v).sum()` */
  function CountOf(sevs: seq<int>, v: int): (n: nat)
    ensures n <= |sevs|
    ensures n == 0 <==> v !in sevs
    ensures n == multiset(sevs)[v]
  {
    if sevs == [] then 0
    else
      assert sevs == [sevs[0]] + sevs[1..];
      (if sevs[0] == v then 1 else 0) + CountOf(sevs[1..], v)
  }

  /** Two different severities are counted in disjoint groups. */
  lemma {:induction false} CountOfDisjoint(sevs: seq<int>, a: int, b: int)
    requires a != b
    ensures CountOf(sevs, a) + CountOf(sevs, b) <= |sevs|
  {
    if sevs != [] {
      CountOfDisjoint(sevs[1..], a, b);
    }
  }

  /**
   * The merged and zero-filled columns of hexagon `h`: the group's max, size, number of
   * severities equal to 2 and to 3, and the sum of the last two.
   */
  function HexStats(events: seq<Event>, h: nat): (s: Stats)
    ensures s.count == |Matched(events, h)|
    ensures s.lv2PlusLv3 == s.lv2Count + s.lv3Count <= s.count
    ensures s.count == 0 ==> s == Stats(0, 0, 0, 0, 0)
    ensures s.lv2Count == multiset(Matched(events, h))[2]
    ensures s.lv3Count == multiset(Matched(events, h))[3]
  {
    var sevs := Matched(events, h);
    CountOfDisjoint(sevs, 2, 3);
    var lv2, lv3 := CountOf(sevs, 2), CountOf(sevs, 3);
    Stats(MaxLevel(sevs), |sevs|, lv2, lv3, lv2 + lv3)
  }

  /** The number of events joined to hexagon `h` with severity 2 or 3, counted on the events. */
  function SevereJoined(events: seq<Event>, h: nat): (k: nat)
    ensures k <= |events|
  {
    if events == [] then 0
    else
      (if events[0].hex == Some(h) && (events[0].severity == 2 || events[0].severity == 3) then 1 else 0)
      + SevereJoined(events[1..], h)
  }

  /** `lv2_plus_lv3` of a hexagon is the number of its events with severity 2 or 3. */
  lemma {:induction false} SevereJoinedIsLv2PlusLv3(events: seq<Event>, h: nat)
    ensures HexStats(events, h).lv2PlusLv3 == SevereJoined(events, h)
  {
    if events != [] {
      SevereJoinedIsLv2PlusLv3(events[1..], h);
      var head := if events[0].hex == Some(h) then [events[0].severity] else [];
      assert Matched(events, h) == head + Matched(events[1..], h);
      assert multiset(Matched(events, h)) == multiset(head) + multiset(Matched(events[1..], h));
    }
  }

  /** The statistics column for hexagons `0 .. n-1`; events joined to other ids are not merged. */
  function Aggregate(events: seq<Event>, n: nat): (stats: seq<Stats>)
    ensures |stats| == n
  {
    seq(n, h requires 0 <= h < n => HexStats(events, h))
  }

  // ---------------------------------------------------------------------------
  // Conservation

  /** The number of events joined to one of the hexagons `0 .. n-1`. */
  function JoinedBelow(events: seq<Event>, n: nat): (k: nat)
    ensures k <= |events|
  {
    if events == [] then 0
    else (if events[0].hex.Some? && events[0].hex.value < n then 1 else 0) + JoinedBelow(events[1..], n)
  }

  /** Sum of the `count` column. */
  function SumCounts(stats: seq<Stats>): nat {
    if stats == [] then 0 else SumCounts(stats[..|stats| - 1]) + stats[|stats| - 1].count
  }

  lemma {:induction false} JoinedBelowStep(events: seq<Event>, n: nat)
    ensures JoinedBelow(events, n + 1) == JoinedBelow(events, n) + |Matched(events, n)|
  {
    if events != [] {
      JoinedBelowStep(events[1..], n);
    }
  }

  /** The counts add up to the number of events joined to an existing hexagon. */
  lemma {:induction false} SumCountsIsJoined(events: seq<Event>, n: nat)
    ensures SumCounts(Aggregate(events, n)) == JoinedBelow(events, n)
  {
    if n == 0 {
      assert JoinedBelow(events, 0) == 0 by { JoinedNone(events); }
    } else {
      SumCountsIsJoined(events, n - 1);
      assert Aggregate(events, n)[..n - 1] == Aggregate(events, n - 1);
      JoinedBelowStep(events, n - 1);
    }
  }

  lemma {:induction false} JoinedNone(events: seq<Event>)
    ensures JoinedBelow(events, 0) == 0
  {
    if events != [] {
      JoinedNone(events[1..]);
    }
  }

  /** Every event joined to an existing hexagon counts; no other event does. */
  lemma {:induction false} JoinedAll(events: seq<Event>, n: nat)
    requires forall e :: e in events ==> e.hex.Some? && e.hex.value < n
    ensures JoinedBelow(events, n) == |events|
  {
    if events != [] {
      assert events[0] in events;
      JoinedAll(events[1..], n);
    }
  }

  /**
   * Conservation: the counts add up to at most the number of events, with equality when
   * every event is joined to one of the hexagons.
   */
  lemma Conservation(events: seq<Event>, n: nat)
    ensures SumCounts(Aggregate(events, n)) <= |events|
    ensures (forall e :: e in events ==> e.hex.Some? && e.hex.value < n) ==> SumCounts(Aggregate(events, n)) == |events|
  {
    SumCountsIsJoined(events, n);
    if forall e :: e in events ==> e.hex.Some? && e.hex.value < n {
      JoinedAll(events, n);
    }
  }

  /** The group of hexagon `h` holds exactly the severities of the events joined to `h`. */
  lemma {:induction false} MatchedSeverities(events: seq<Event>, h: nat)
    ensures forall v :: v in Matched(events, h) <==> exists e :: e in events && e.hex == Some(h) && e.severity == v
  {
    if events != [] {
      MatchedSeverities(events[1..], h);
      forall v ensures v in Matched(events, h) <==> exists e :: e in events && e.hex == Some(h) && e.severity == v {
        if v in Matched(events[1..], h) {
          var e :| e in events[1..] && e.hex == Some(h) && e.severity == v;
          assert e in events;
        }
        if exists e :: e in events && e.hex == Some(h) && e.severity == v {
          var e :| e in events && e.hex == Some(h) && e.severity == v;
          if e != events[0] {
            assert e in events[1..];
          }
        }
      }
    }
  }

  /** `max_level` is the largest severity among the events joined to the hexagon. */
  lemma MaxLevelOfHexagon(events: seq<Event>, h: nat)
    ensures forall e :: e in events && e.hex == Some(h) ==> e.severity <= HexStats(events, h).maxLevel
    ensures HexStats(events, h).count > 0 ==>
      exists e :: e in events && e.hex == Some(h) && e.severity == HexStats(events, h).maxLevel
  {
    MatchedSeverities(events, h);
    forall e | e in events && e.hex == Some(h) ensures e.severity <= HexStats(events, h).maxLevel {
      assert e.severity in Matched(events, h);
    }
  }
}
