/**
 * `filter_data_by_date` (backend/data_loader.py): keep the rows whose calendar date is on
 * or after the start date, then those on or before the end date. A bound that is absent
 * or the empty string is skipped (`if start_date:`); parsing a bound is not modelled, a
 * given bound is already a date.
 */
module DataLoader {
  import opened Wrappers

  /** A calendar date (`发布时间.dt.date`), compared field by field. */
  datatype Date = Date(year: int, month: int, day: int)

  predicate DateLe(a: Date, b: Date) {
    a.year < b.year || (a.year == b.year && (a.month < b.month || (a.month == b.month && a.day <= b.day)))
  }

  /** A cleaned data row: its date, the severity (`影响分类`) and the hour (`小时`). */
  datatype Row = Row(date: Date, severity: int, hour: int)

  /** `df[df['日期'] >= start]`, keeping the order of the frame. */
  function OnOrAfter(rows: seq<Row>, start: Date): seq<Row> {
    if rows == [] then []
    else OnOrAfter(rows[..|rows| - 1], start) + (if DateLe(start, rows[|rows| - 1].date) then [rows[|rows| - 1]] else [])
  }

  /** `df[df['日期'] <= end]`, keeping the order of the frame. */
  function OnOrBefore(rows: seq<Row>, end: Date): seq<Row> {
    if rows == [] then []
    else OnOrBefore(rows[..|rows| - 1], end) + (if DateLe(rows[|rows| - 1].date, end) then [rows[|rows| - 1]] else [])
  }

  /** The two filters in the order the source applies them. */
  function FilterByDate(rows: seq<Row>, start: Option<Date>, end: Option<Date>): seq<Row> {
    var afterStart := if start.Some? then OnOrAfter(rows, start.value) else rows;
    if end.Some? then OnOrBefore(afterStart, end.value) else afterStart
  }

  /** A date lies between the given bounds, each bound inclusive. */
  predicate InRange(d: Date, start: Option<Date>, end: Option<Date>) {
    (start.Some? ==> DateLe(start.value, d)) && (end.Some? ==> DateLe(d, end.value))
  }

  /** Reference definition: one pass keeping the in-range rows. */
  function RowsInRange(rows: seq<Row>, start: Option<Date>, end: Option<Date>): seq<Row> {
    if rows == [] then []
    else RowsInRange(rows[..|rows| - 1], start, end) + (if InRange(rows[|rows| - 1].date, start, end) then [rows[|rows| - 1]] else [])
  }

  // ---------------------------------------------------------------------------
  // Properties

  lemma {:induction false} OnOrAfterIsRange(rows: seq<Row>, start: Date)
    ensures OnOrAfter(rows, start) == RowsInRange(rows, Some(start), None)
  {
    if rows != [] {
      OnOrAfterIsRange(rows[..|rows| - 1], start);
    }
  }

  lemma {:induction false} OnOrBeforeOfRange(rows: seq<Row>, start: Option<Date>, end: Date)
    ensures OnOrBefore(RowsInRange(rows, start, None), end) == RowsInRange(rows, start, Some(end))
  {
    if rows != [] {
      var init, last := rows[..|rows| - 1], rows[|rows| - 1];
      OnOrBeforeOfRange(init, start, end);
      var prefix := RowsInRange(init, start, None);
      if InRange(last.date, start, None) {
        var full := prefix + [last];
        assert RowsInRange(rows, start, None) == full;
        assert full[..|full| - 1] == prefix && full[|full| - 1] == last;
        assert OnOrBefore(full, end) == OnOrBefore(prefix, end) + (if DateLe(last.date, end) then [last] else []);
        assert RowsInRange(rows, start, Some(end)) == RowsInRange(init, start, Some(end)) + (if InRange(last.date, start, Some(end)) then [last] else []);
        assert InRange(last.date, start, Some(end)) == DateLe(last.date, end);
      } else {
        assert RowsInRange(rows, start, None) == prefix;
        assert RowsInRange(rows, start, Some(end)) == RowsInRange(init, start, Some(end));
      }
    }
  }

  lemma {:induction false} NoBoundsKeepsAll(rows: seq<Row>)
    ensures RowsInRange(rows, None, None) == rows
  {
    if rows != [] {
      NoBoundsKeepsAll(rows[..|rows| - 1]);
      assert rows == rows[..|rows| - 1] + [rows[|rows| - 1]];
    }
  }

  /** Filtering by start and then by end is the single in-range filter. */
  lemma FilterIsRangeFilter(rows: seq<Row>, start: Option<Date>, end: Option<Date>)
    ensures FilterByDate(rows, start, end) == RowsInRange(rows, start, end)
  {
    if start.Some? {
      OnOrAfterIsRange(rows, start.value);
    } else {
      NoBoundsKeepsAll(rows);
    }
    if end.Some? {
      OnOrBeforeOfRange(rows, start, end.value);
    }
  }

  /** Without bounds the frame is returned unchanged. */
  lemma FilterWithoutBounds(rows: seq<Row>)
    ensures FilterByDate(rows, None, None) == rows
  {
  }

  lemma {:induction false} RowsInRangeMembership(rows: seq<Row>, start: Option<Date>, end: Option<Date>)
    ensures forall r :: r in RowsInRange(rows, start, end) <==> r in rows && InRange(r.date, start, end)
  {
    if rows != [] {
      var init, last := rows[..|rows| - 1], rows[|rows| - 1];
      RowsInRangeMembership(init, start, end);
      assert rows == init + [last];
      forall r ensures r in RowsInRange(rows, start, end) <==> r in rows && InRange(r.date, start, end) {
        assert r in rows <==> r in init || r == last;
      }
    }
  }

  /** A row survives exactly when it was in the frame and its date lies between the bounds. */
  lemma FilterMembership(rows: seq<Row>, start: Option<Date>, end: Option<Date>)
    ensures forall r :: r in FilterByDate(rows, start, end) <==> r in rows && InRange(r.date, start, end)
  {
    FilterIsRangeFilter(rows, start, end);
    RowsInRangeMembership(rows, start, end);
  }

  /** `a` is `b` with some elements dropped, the rest in order. */
  predicate IsSubsequence(a: seq<Row>, b: seq<Row>)
    decreases |b|
  {
    if a == [] then true
    else if b == [] then false
    else if a[|a| - 1] == b[|b| - 1] then IsSubsequence(a[..|a| - 1], b[..|b| - 1])
    else IsSubsequence(a, b[..|b| - 1])
  }

  lemma {:induction false} RowsInRangeSubsequence(rows: seq<Row>, start: Option<Date>, end: Option<Date>)
    ensures IsSubsequence(RowsInRange(rows, start, end), rows)
  {
    if rows != [] {
      var init, last := rows[..|rows| - 1], rows[|rows| - 1];
      RowsInRangeSubsequence(init, start, end);
      var prefix := RowsInRange(init, start, end);
      if InRange(last.date, start, end) {
        var full := prefix + [last];
        assert full[..|full| - 1] == prefix;
      } else {
        assert RowsInRange(rows, start, end) == prefix;
        SubsequenceOfLonger(prefix, init, last);
      }
    }
  }

  lemma {:induction false} SubsequenceOfLonger(a: seq<Row>, b: seq<Row>, x: Row)
    requires IsSubsequence(a, b)
    ensures IsSubsequence(a, b + [x])
    decreases |b|, 1
  {
    var bx := b + [x];
    assert bx[..|bx| - 1] == b;
    if a != [] && a[|a| - 1] == x {
      SubsequenceDropLast(a, b);
    }
  }

  /** Removing the last element of a subsequence keeps it a subsequence. */
  lemma {:induction false} SubsequenceDropLast(a: seq<Row>, b: seq<Row>)
    requires a != [] && IsSubsequence(a, b)
    ensures IsSubsequence(a[..|a| - 1], b)
    decreases |b|, 0
  {
    var b' := b[..|b| - 1];
    assert b' + [b[|b| - 1]] == b;
    if a[|a| - 1] == b[|b| - 1] {
      SubsequenceOfLonger(a[..|a| - 1], b', b[|b| - 1]);
    } else {
      SubsequenceDropLast(a, b');
      SubsequenceOfLonger(a[..|a| - 1], b', b[|b| - 1]);
    }
  }

  /** The kept rows appear in the order of the frame; nothing is reordered or duplicated. */
  lemma FilterKeepsOrder(rows: seq<Row>, start: Option<Date>, end: Option<Date>)
    ensures IsSubsequence(FilterByDate(rows, start, end), rows)
  {
    FilterIsRangeFilter(rows, start, end);
    RowsInRangeSubsequence(rows, start, end);
  }

  lemma {:induction false} RowsInRangeIdempotent(rows: seq<Row>, start: Option<Date>, end: Option<Date>)
    ensures RowsInRange(RowsInRange(rows, start, end), start, end) == RowsInRange(rows, start, end)
  {
    if rows != [] {
      var init, last := rows[..|rows| - 1], rows[|rows| - 1];
      RowsInRangeIdempotent(init, start, end);
      var prefix := RowsInRange(init, start, end);
      if InRange(last.date, start, end) {
        var full := prefix + [last];
        assert RowsInRange(rows, start, end) == full;
        assert full[..|full| - 1] == prefix && full[|full| - 1] == last;
        assert RowsInRange(full, start, end) == RowsInRange(prefix, start, end) + [last];
        assert RowsInRange(rows, start, end) == prefix + [last];
      } else {
        assert RowsInRange(rows, start, end) == prefix;
      }
    }
  }

  /** Filtering a filtered frame again with the same bounds changes nothing. */
  lemma FilterIdempotent(rows: seq<Row>, start: Option<Date>, end: Option<Date>)
    ensures FilterByDate(FilterByDate(rows, start, end), start, end) == FilterByDate(rows, start, end)
  {
    FilterIsRangeFilter(rows, start, end);
    FilterIsRangeFilter(RowsInRange(rows, start, end), start, end);
    RowsInRangeIdempotent(rows, start, end);
  }

  /** Three days of data filtered to the middle day keep only its severity-2 row. */
  lemma FilterOneDay()
    ensures var rows := [Row(Date(2023, 1, 1), 1, 10), Row(Date(2023, 1, 2), 2, 11), Row(Date(2023, 1, 3), 3, 12)];
      var day := Some(Date(2023, 1, 2));
      var kept := FilterByDate(rows, day, day);
      |kept| == 1 && kept[0].severity == 2
  {
    var r1, r2, r3 := Row(Date(2023, 1, 1), 1, 10), Row(Date(2023, 1, 2), 2, 11), Row(Date(2023, 1, 3), 3, 12);
    var rows, day := [r1, r2, r3], Date(2023, 1, 2);
    assert rows[..2] == [r1, r2] && [r1, r2][..1] == [r1] && [r1][..0] == [];
    assert OnOrAfter([r1], day) == [];
    assert OnOrAfter([r1, r2], day) == [r2];
    assert OnOrAfter(rows, day) == [r2, r3];
    assert [r2, r3][..1] == [r2] && [r2][..0] == [];
    assert OnOrBefore([r2], day) == [r2];
    assert OnOrBefore([r2, r3], day) == [r2];
  }
}
