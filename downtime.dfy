/**
 * The downtime report of one monitor: its recent history is replayed oldest
 * first, a run of `down` rows opens an outage at its first row and the next
 * `up` or `slow` row closes it; the report lists the outages newest first.
 */
module Downtime {
  import opened Wrappers
  import opened Schema
  import opened Seqs
  import opened Store

  /** At most this many outages are listed. */
  const ReportLimit: nat := 30

  /** One outage: when it started and ended (milliseconds) and its length in whole seconds. */
  datatype Interval = Interval(start: int, end: int, duration: int)

  /** The three answers of `GET /api/monitors/:id/downtime`. */
  datatype DowntimeReply =
    | HistoryFailed                                  // 500, "Failed to fetch history"
    | NoHistory                                      // no rows: no outages, "No history available"
    | Downtimes(downtimes: seq<Interval>, total: nat)

  /** A row that closes an open outage. */
  predicate IsRecovery(h: HistoryRow) {
    h.status == Up || h.status == Slow
  }

  /**
   * The outages found by replaying `rows` (oldest first) when an outage
   * started at `open` is still open: a `down` row opens one unless one is
   * open, a recovery row closes the open one, any other row changes nothing.
   */
  function Scan(rows: seq<HistoryRow>, open: Option<int>): (r: seq<Interval>)
    ensures forall k :: 0 <= k < |r| ==> r[k].duration == (r[k].end - r[k].start) / 1000
    decreases |rows|
  {
    if |rows| == 0 then []
    else
      var h := rows[0];
      if h.status == Down then
        Scan(rows[1..], if open.None? then Some(h.checkedAt) else open)
      else if IsRecovery(h) && open.Some? then
        [Interval(open.value, h.checkedAt, (h.checkedAt - open.value) / 1000)] + Scan(rows[1..], None)
      else
        Scan(rows[1..], open)
  }

  /** The replay loop of the endpoint over the history in oldest-first order. */
  method FindDowntimes(oldestFirst: seq<HistoryRow>) returns (downtimes: seq<Interval>)
    ensures downtimes == Scan(oldestFirst, None)
  {
    downtimes := [];
    var downStart: Option<int> := None;
    var i := 0;
    while i < |oldestFirst|
      invariant 0 <= i <= |oldestFirst|
      invariant downtimes + Scan(oldestFirst[i..], downStart) == Scan(oldestFirst, None)
    {
      var entry := oldestFirst[i];
      assert oldestFirst[i..][1..] == oldestFirst[i + 1..];
      if entry.status == Down {
        if downStart.None? {
          downStart := Some(entry.checkedAt);
        }
      } else if (entry.status == Up || entry.status == Slow) && downStart.Some? {
        var outage := Interval(downStart.value, entry.checkedAt, (entry.checkedAt - downStart.value) / 1000);
        AppendAssoc(downtimes, [outage], Scan(oldestFirst[i + 1..], None));
        downtimes := downtimes + [outage];
        downStart := None;
      }
      i := i + 1;
    }
    assert oldestFirst[i..] == [];
  }

  /**
   * The endpoint over the result of `getMonitorHistory` (newest first): a
   * failed query answers 500, an empty history says so, otherwise the outages
   * newest first, at most 30, with the count of all of them.
   */
  method DowntimeReport(fetched: Result<seq<HistoryRow>, DbError>) returns (r: DowntimeReply)
    ensures r == HistoryFailed <==> fetched.Failure?
    ensures r == NoHistory <==> fetched.Success? && |fetched.value| == 0
    ensures r.Downtimes? ==>
      var all := Scan(Reverse(fetched.value), None);
      && r.total == |all|
      && |r.downtimes| == (if |all| < ReportLimit then |all| else ReportLimit)
      && forall k :: 0 <= k < |r.downtimes| ==> r.downtimes[k] == all[|all| - 1 - k]
  {
    match fetched
    case Failure(_) =>
      r := HistoryFailed;
    case Success(history) =>
      if |history| == 0 {
        r := NoHistory;
      } else {
        var downtimes := FindDowntimes(Reverse(history));
        var recent := Reverse(downtimes);
        r := Downtimes(if |recent| <= ReportLimit then recent else recent[..ReportLimit], |downtimes|);
      }
  }

  // ---------------------------------------------------------------------
  // Properties of the replay

  /** Every outage is opened by a `down` row and closed by a recovery row, so there are at most half as many. */
  lemma {:induction false} ScanBound(rows: seq<HistoryRow>, open: Option<int>)
    ensures 2 * |Scan(rows, open)| <= |rows| + (if open.Some? then 1 else 0)
    decreases |rows|
  {
    if |rows| > 0 {
      var h := rows[0];
      if h.status == Down {
        ScanBound(rows[1..], if open.None? then Some(h.checkedAt) else open);
      } else if IsRecovery(h) && open.Some? {
        ScanBound(rows[1..], None);
      } else {
        ScanBound(rows[1..], open);
      }
    }
  }

  /** A history without `down` rows reports no outage, and so does one without recovery rows. */
  lemma {:induction false} ScanNeedsBoth(rows: seq<HistoryRow>, open: Option<int>)
    ensures (forall i :: 0 <= i < |rows| ==> !IsRecovery(rows[i])) ==> Scan(rows, open) == []
    ensures open.None? && (forall i :: 0 <= i < |rows| ==> rows[i].status != Down) ==> Scan(rows, open) == []
    decreases |rows|
  {
    if |rows| > 0 {
      var h := rows[0];
      if h.status == Down {
        ScanNeedsBoth(rows[1..], if open.None? then Some(h.checkedAt) else open);
      } else if IsRecovery(h) && open.Some? {
        ScanNeedsBoth(rows[1..], None);
      } else {
        ScanNeedsBoth(rows[1..], open);
      }
    }
  }

  /** Rows in `checked_at` order, oldest first. */
  predicate Chronological(rows: seq<HistoryRow>) {
    forall i, j :: 0 <= i < j < |rows| ==> rows[i].checkedAt <= rows[j].checkedAt
  }

  /**
   * Over a chronological history every outage ends no earlier than it starts
   * (so its length is not negative), and each one ends before the next starts.
   */
  lemma {:induction false} ScanOrdered(rows: seq<HistoryRow>, open: Option<int>)
    requires Chronological(rows)
    requires open.Some? && |rows| > 0 ==> open.value <= rows[0].checkedAt
    ensures var s := Scan(rows, open);
      && (forall k :: 0 <= k < |s| ==> s[k].start <= s[k].end && 0 <= s[k].duration)
      && (forall k :: 0 <= k < |s| - 1 ==> s[k].end <= s[k + 1].start)
      && (|rows| > 0 ==> forall k :: 0 <= k < |s| ==>
            (if open.Some? then open.value else rows[0].checkedAt) <= s[k].start)
    decreases |rows|
  {
    if |rows| > 0 {
      var h, rest := rows[0], rows[1..];
      assert Chronological(rest);
      if |rest| > 0 {
        assert h.checkedAt <= rest[0].checkedAt;
      }
      if h.status == Down {
        var open' := if open.None? then Some(h.checkedAt) else open;
        ScanOrdered(rest, open');
        assert Scan(rows, open) == Scan(rest, open');
      } else if IsRecovery(h) && open.Some? {
        ScanOrdered(rest, None);
        assert Scan(rows, open) == [Interval(open.value, h.checkedAt, (h.checkedAt - open.value) / 1000)] + Scan(rest, None);
      } else {
        ScanOrdered(rest, open);
        assert Scan(rows, open) == Scan(rest, open);
        if |rest| > 0 {
          assert forall k :: 0 <= k < |Scan(rest, open)| ==>
            (if open.Some? then open.value else rest[0].checkedAt) <= Scan(rest, open)[k].start;
          assert (if open.Some? then open.value else h.checkedAt) <= (if open.Some? then open.value else rest[0].checkedAt);
        }
      }
    }
  }

  /** A newest-first list read backwards is chronological. */
  lemma ReversedNewestFirst(rows: seq<HistoryRow>)
    requires forall i, j :: 0 <= i < j < |rows| ==> rows[i].checkedAt >= rows[j].checkedAt
    ensures Chronological(Reverse(rows))
  {
    var r := Reverse(rows);
    forall i, j | 0 <= i < j < |r|
      ensures r[i].checkedAt <= r[j].checkedAt
    {
      assert r[i] == rows[|rows| - 1 - i] && r[j] == rows[|rows| - 1 - j];
    }
  }

  /**
   * Over at most 30 rows, newest first, the report is never cut short, and
   * every outage has a non-negative length and ends before the next one starts.
   */
  lemma RecentDowntimes(rows: seq<HistoryRow>)
    requires |rows| <= HistoryLimit
    requires forall i, j :: 0 <= i < j < |rows| ==> rows[i].checkedAt >= rows[j].checkedAt
    ensures var all := Scan(Reverse(rows), None);
      && |all| <= ReportLimit / 2
      && (forall k :: 0 <= k < |all| ==> all[k].start <= all[k].end && 0 <= all[k].duration)
      && (forall k :: 0 <= k < |all| - 1 ==> all[k].end <= all[k + 1].start)
  {
    ScanBound(Reverse(rows), None);
    ReversedNewestFirst(rows);
    ScanOrdered(Reverse(rows), None);
  }

  /** The rows the store hands out for a monitor meet the conditions of `RecentDowntimes`. */
  lemma StoreDowntimes(db: Database, id: nat)
    ensures var all := Scan(Reverse(db.MonitorHistory(id)), None);
      && |all| <= ReportLimit / 2
      && (forall k :: 0 <= k < |all| ==> all[k].start <= all[k].end && 0 <= all[k].duration)
  {
    var rows := db.MonitorHistory(id);
    assert NewestOf(Filter(db.history, OfMonitor(id)), HistoryLimit, rows);
    RecentDowntimes(rows);
  }
}
