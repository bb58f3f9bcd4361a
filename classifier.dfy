/** The star rating of one hexagon (`star_rating`, nested in `calculate_hexagon_influence`). */
module Classifier {
  import opened Aggregation

  /** More than this many level-2 and level-3 events make a hexagon four-star. */
  const FourStarThreshold: nat := 5

  /**
   * `4 if lv2_plus_lv3 > 5 else min(3, int(max_level or 0))`. The `pd.isna` branch of the
   * source is unreachable after the zero fill, and `max_level or 0` is `max_level` for an
   * integer, so neither appears here.
   */
  function StarRating(s: Stats): (star: int)
    ensures star == 4 <==> s.lv2PlusLv3 > FourStarThreshold
    ensures star <= 4
    ensures star != 4 ==> star <= 3 && star <= s.maxLevel
  {
    if s.lv2PlusLv3 > FourStarThreshold then 4
    else if s.maxLevel < 3 then s.maxLevel else 3
  }

  /**
   * On a hexagon's aggregated statistics: no events give 0, four stars need at least six
   * events, and with non-negative severities the rating lies in 0..4 and is otherwise the
   * max severity capped at 3.
   */
  lemma StarRatingOfHexagon(events: seq<Event>, h: nat)
    requires forall e :: e in events ==> e.severity >= 0
    ensures var s := HexStats(events, h);
      var star := StarRating(s);
      && 0 <= star <= 4
      && (s.count == 0 ==> star == 0)
      && (star == 4 ==> s.count > FourStarThreshold)
      && (s.lv2PlusLv3 <= FourStarThreshold ==> star == (if s.maxLevel < 3 then s.maxLevel else 3))
  {
    var s := HexStats(events, h);
    if s.count > 0 {
      MaxLevelOfHexagon(events, h);
    }
  }

  /** Four stars exactly when more than five of the hexagon's events have severity 2 or 3. */
  lemma FourStarsOnEvents(events: seq<Event>, h: nat)
    ensures StarRating(HexStats(events, h)) == 4 <==> SevereJoined(events, h) > FourStarThreshold
  {
    SevereJoinedIsLv2PlusLv3(events, h);
  }

  /** The threshold is strict: five level-2/3 events do not give four stars, six do. */
  lemma ThresholdIsStrict(s: Stats)
    ensures s.lv2PlusLv3 == 5 ==> StarRating(s) == (if s.maxLevel < 3 then s.maxLevel else 3)
    ensures s.lv2PlusLv3 == 6 ==> StarRating(s) == 4
  {
  }
}
