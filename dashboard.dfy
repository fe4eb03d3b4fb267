/**
 * The dashboard's aggregates over the monitor list: status counts, the
 * 95th-percentile latency, the overall uptime and the weighted health score,
 * and the status tabs.
 */
module Dashboard {
  import opened Wrappers
  import opened Schema
  import opened Seqs
  import opened Sorting
  import opened Numeric

  function HasStatus(s: Status): Monitor -> bool {
    (m: Monitor) => m.status == s
  }

  /** `monitors.filter((m) => m.status === s).length`. */
  function Count(ms: seq<Monitor>, s: Status): (c: nat)
    ensures c <= |ms|
    ensures c == 0 <==> forall m :: m in ms ==> m.status != s
  {
    var kept := Filter(ms, HasStatus(s));
    assert |kept| > 0 ==> kept[0] in kept;
    |kept|
  }

  /** Every monitor has exactly one of the four statuses. */
  lemma {:induction false} CountsSum(ms: seq<Monitor>)
    ensures Count(ms, Up) + Count(ms, Down) + Count(ms, Slow) + Count(ms, Unknown) == |ms|
    decreases |ms|
  {
    if |ms| > 0 {
      CountsSum(ms[..|ms| - 1]);
    }
  }

  // ---------------------------------------------------------------------
  // Percentile

  /**
   * The rank `p / 100 * last` in hundredths: its whole part and the
   * hundredths beyond it. A rank with a fractional part has a neighbour
   * above it within `0 .. last`.
   */
  function Rank(p: int, last: nat): (k: (nat, nat))
    requires 0 <= p <= 100
    ensures 100 * k.0 + k.1 == p * last && k.1 < 100
    ensures k.0 <= last && (k.1 != 0 ==> k.0 < last)
  {
    MulMono(p, 100, last);
    var q, rem := (p * last) / 100, (p * last) % 100;
    assert q * 100 + rem == p * last;
    (q, rem)
  }

  /**
   * `computePercentile(arr, p)`: 0 for no values; otherwise the value at rank
   * `p / 100 * (n - 1)` of the ascending values when that rank is whole, and
   * the linear interpolation between its two neighbours, rounded half up,
   * when it is not.
   */
  function Percentile(arr: seq<int>, p: int): (r: int)
    requires 0 <= p <= 100
    ensures |arr| == 0 ==> r == 0
    ensures |arr| > 0 ==>
      var s, (lo, rem) := Sort(arr), Rank(p, |arr| - 1);
      && (rem == 0 ==> r == s[lo])
      && (rem > 0 ==> 200 * r <= 2 * (s[lo] * (100 - rem) + s[lo + 1] * rem) + 100 < 200 * (r + 1))
  {
    if |arr| == 0 then 0 else AtRank(Sort(arr), p)
  }

  /**
   * The value at rank `p / 100 * (|sorted| - 1)`: the value there when the
   * rank is whole, else the weighted mean of its two neighbours, with weights
   * `100 - rem` and `rem` hundredths, rounded half up. It lies between the
   * ends of a sorted list.
   */
  function AtRank(sorted: seq<int>, p: int): (r: int)
    requires 0 <= p <= 100 && |sorted| > 0
    ensures var (lo, rem) := Rank(p, |sorted| - 1);
      && (rem == 0 ==> r == sorted[lo])
      && (rem > 0 ==> 200 * r <= 2 * (sorted[lo] * (100 - rem) + sorted[lo + 1] * rem) + 100 < 200 * (r + 1))
    ensures Sorted(sorted) ==> sorted[0] <= r <= sorted[|sorted| - 1]
  {
    var (lower, rem) := Rank(p, |sorted| - 1);
    if rem == 0 then sorted[lower]
    else
      var v := RoundDiv(sorted[lower] * (100 - rem) + sorted[lower + 1] * rem, 100);
      if Sorted(sorted) then
        InterpolationBetween(sorted[lower], sorted[lower + 1], rem);
        v
      else v
  }

  /** The ends of a sorted arrangement are the least and the greatest value. */
  lemma SortedEnds(arr: seq<int>)
    requires |arr| > 0
    ensures Sort(arr)[0] in arr && Sort(arr)[|arr| - 1] in arr
    ensures forall x :: x in arr ==> Sort(arr)[0] <= x <= Sort(arr)[|arr| - 1]
  {
    var s := Sort(arr);
    assert s[0] in multiset(s) && s[|s| - 1] in multiset(s);
    forall x | x in arr
      ensures s[0] <= x <= s[|s| - 1]
    {
      assert x in multiset(arr);
      assert x in s;
    }
  }

  /** An interpolated value lies between the two values it interpolates. */
  lemma InterpolationBetween(lo: int, hi: int, rem: int)
    requires lo <= hi && 0 < rem < 100
    ensures lo <= RoundDiv(lo * (100 - rem) + hi * rem, 100) <= hi
  {
    var n := lo * (100 - rem) + hi * rem;
    assert n == lo * 100 + (hi - lo) * rem;
    MulMono(0, hi - lo, rem);
    MulMono(rem, 100, hi - lo);
    assert (hi - lo) * rem == rem * (hi - lo);
    RoundDivBounds(n, 100, lo);
    RoundDivBounds(n, 100, hi);
  }

  /** A percentile of some values lies between their least and their greatest; of one value it is that value. */
  lemma PercentileBetween(arr: seq<int>, p: int)
    requires 0 <= p <= 100 && |arr| > 0
    ensures forall x :: x in arr && (forall y :: y in arr ==> x <= y) ==> x <= Percentile(arr, p)
    ensures forall x :: x in arr && (forall y :: y in arr ==> y <= x) ==> Percentile(arr, p) <= x
    ensures |arr| == 1 ==> Percentile(arr, p) == arr[0]
  {
    SortedEnds(arr);
    if |arr| == 1 {
      assert arr[0] in arr;
    }
  }

  /** The 0th percentile is the least value and the 100th the greatest. */
  lemma PercentileExtremes(arr: seq<int>)
    requires |arr| > 0
    ensures Percentile(arr, 0) in arr && forall x :: x in arr ==> Percentile(arr, 0) <= x
    ensures Percentile(arr, 100) in arr && forall x :: x in arr ==> x <= Percentile(arr, 100)
  {
    SortedEnds(arr);
    assert Rank(0, |arr| - 1) == (0, 0) && Rank(100, |arr| - 1) == (|arr| - 1, 0);
  }

  /** The 95th percentile of 10, 20, 30 and 40 is 39: rank 2.85 lies 85 hundredths of the way from 30 to 40. */
  lemma Percentile95Example(a: seq<int>)
    requires a == [10, 20, 30, 40]
    ensures Percentile(a, 95) == 39
  {
    assert AtRank(a, 95) == 39 by {
      var (lo, rem) := Rank(95, 3);
      assert lo == 2 && rem == 85;
    }
    assert Sort(a) == a by {
      assert Sorted(a);
      SortedUnique(Sort(a), a);
    }
  }

  /** The percentile depends on the values only, not on their order (the input is copied before sorting). */
  lemma PercentileOrderFree(a: seq<int>, b: seq<int>, p: int)
    requires 0 <= p <= 100
    requires multiset(a) == multiset(b)
    ensures Percentile(a, p) == Percentile(b, p)
  {
    SortedUnique(Sort(a), Sort(b));
    assert |a| == |multiset(a)| == |multiset(b)| == |b|;
    assert |a| > 0 ==> Percentile(a, p) == AtRank(Sort(b), p);
  }

  // ---------------------------------------------------------------------
  // Aggregates

  function Positive(): int -> bool {
    (x: int) => x > 0
  }

  /** `monitors.map((m) => m.response_time)`. */
  function Latencies(ms: seq<Monitor>): (ts: seq<int>)
    ensures |ts| == |ms| && forall i :: 0 <= i < |ms| ==> ts[i] == ms[i].responseTime
  {
    seq(|ms|, i requires 0 <= i < |ms| => ms[i].responseTime)
  }

  /**
   * The latencies the percentile is taken over: the positive ones, in list
   * order, each as often as it occurs.
   */
  function ResponseTimes(ms: seq<Monitor>): (r: seq<int>)
    ensures forall x :: x in r ==> x > 0
    ensures forall i :: 0 <= i < |ms| && ms[i].responseTime > 0 ==> ms[i].responseTime in r
    ensures IsSubsequence(r, Latencies(ms))
    ensures forall x :: multiset(r)[x] == if x > 0 then multiset(Latencies(ms))[x] else 0
  {
    var times := Latencies(ms);
    assert forall i :: 0 <= i < |ms| && ms[i].responseTime > 0 ==> times[i] in times && Positive()(times[i]);
    FilterMeaning(times, Positive());
    Filter(times, Positive())
  }

  /** Sum of the latencies. */
  function TotalResponse(ms: seq<Monitor>): int
    decreases |ms|
  {
    if |ms| == 0 then 0 else TotalResponse(ms[..|ms| - 1]) + ms[|ms| - 1].responseTime
  }

  lemma {:induction false} TotalResponseBounds(ms: seq<Monitor>, lo: int, hi: int)
    requires forall i :: 0 <= i < |ms| ==> lo <= ms[i].responseTime <= hi
    ensures |ms| * lo <= TotalResponse(ms) <= |ms| * hi
    decreases |ms|
  {
    if |ms| > 0 {
      TotalResponseBounds(ms[..|ms| - 1], lo, hi);
    }
  }

  /** The maximal latency in the health score, in milliseconds. */
  const MaxLatencyMs: int := 2000

  /**
   * The health score: `round(100 * (0.5 * up/total + 0.3 * (1 - issues/total)
   * + 0.2 * clamp(1 - p95/2000, 0, 1)))` over exact fractions, or `None` (the
   * source's `null`) when there are no monitors.
   */
  function HealthScore(ms: seq<Monitor>, p95: int): (h: Option<int>)
    ensures h.None? <==> |ms| == 0
    ensures h.Some? ==> 0 <= h.value <= 100
  {
    if |ms| == 0 then None
    else
      CountsSum(ms);
      var total := |ms|;
      var num := HealthNumerator(total, Count(ms, Up), Count(ms, Down) + Count(ms, Slow), p95);
      RoundDivBounds(num, 100 * total, 100);
      Some(RoundDiv(num, 100 * total))
  }

  /**
   * The health score is the weighted sum `100 * (0.5 * up/total + 0.3 * (1 -
   * issues/total) + 0.2 * latencyNormalized)` rounded to the nearest integer,
   * halves up.
   */
  lemma HealthScoreValue(ms: seq<Monitor>, p95: int)
    requires |ms| > 0
    ensures var h := HealthScore(ms, p95).value;
      var total, up, issues := |ms|, Count(ms, Up), Count(ms, Down) + Count(ms, Slow);
      // 100 * total times the weighted sum
      var weighted := 5000 * up + 3000 * (total - issues) + total * LatencyShare(p95);
      200 * total * h <= 2 * weighted + 100 * total < 200 * total * (h + 1)
  {
    CountsSum(ms);
    var total := |ms|;
    var num := HealthNumerator(total, Count(ms, Up), Count(ms, Down) + Count(ms, Slow), p95);
    var den := 100 * total;
    assert HealthScore(ms, p95) == Some(RoundDiv(num, den));
    assert 2 * den == 200 * total;
  }

  /** 2000 times `latencyNormalized`, that is `clamp(1 - p95 / 2000, 0, 1)`. */
  function LatencyShare(p95: int): (l: int)
    ensures 0 <= l <= MaxLatencyMs
    ensures p95 <= 0 ==> l == MaxLatencyMs
    ensures p95 >= MaxLatencyMs ==> l == 0
    ensures 0 <= p95 <= MaxLatencyMs ==> l + p95 == MaxLatencyMs
  {
    if p95 <= 0 then MaxLatencyMs else if p95 >= MaxLatencyMs then 0 else MaxLatencyMs - p95
  }

  /**
   * `100 * total` times the weighted sum: 50 points for the share of monitors
   * up, 30 for the share without issues, 20 for the latency term.
   */
  function HealthNumerator(total: nat, up: nat, issues: nat, p95: int): (num: int)
    requires up + issues <= total
    ensures 0 <= num <= 100 * (100 * total)
    ensures num == 5000 * up + 3000 * (total - issues) + total * LatencyShare(p95)
  {
    var latency := LatencyShare(p95);
    MulMono(latency, MaxLatencyMs, total);
    5000 * up + 3000 * (total - issues) + total * latency
  }

  /** All monitors up with no latency scores 100. */
  lemma HealthAllUp(ms: seq<Monitor>, p95: int)
    requires |ms| > 0 && p95 <= 0
    requires forall i :: 0 <= i < |ms| ==> ms[i].status == Up
    ensures HealthScore(ms, p95) == Some(100)
  {
    var total := |ms|;
    assert forall m :: m in ms ==> m.status == Up;
    CountsSum(ms);
    assert Count(ms, Up) == total && Count(ms, Down) + Count(ms, Slow) == 0;
    var num := HealthNumerator(total, total, 0, p95);
    assert num == 100 * (100 * total);
    RoundDivBounds(num, 100 * total, 100);
    assert HealthScore(ms, p95) == Some(RoundDiv(num, 100 * total));
  }

  /** All monitors down with a latency at or past 2000 ms scores 0. */
  lemma HealthAllDown(ms: seq<Monitor>, p95: int)
    requires |ms| > 0 && p95 >= MaxLatencyMs
    requires forall i :: 0 <= i < |ms| ==> ms[i].status == Down
    ensures HealthScore(ms, p95) == Some(0)
  {
    var total := |ms|;
    assert forall m :: m in ms ==> m.status == Down;
    CountsSum(ms);
    assert Count(ms, Up) == 0 && Count(ms, Down) + Count(ms, Slow) == total;
    assert LatencyShare(p95) == 0;
    var num := HealthNumerator(total, 0, total, p95);
    assert num == 0;
    RoundDivBounds(num, 100 * total, 0);
    assert HealthScore(ms, p95) == Some(RoundDiv(num, 100 * total));
  }

  /** The 95th percentile of positive latencies is never negative. */
  lemma P95NonNegative(ms: seq<Monitor>)
    ensures Percentile(ResponseTimes(ms), 95) >= 0
  {
    var times := ResponseTimes(ms);
    if |times| > 0 {
      PercentileBetween(times, 95);
      SortedEnds(times);
    }
  }

  /** The summary cards: counts, the rounded mean latency, the 95th percentile and the health score. */
  datatype Stats = Stats(userCnt: nat, total: nat, up: nat, down: nat, slow: nat, issues: nat,
                         avgResponseTime: int, p95Response: int, healthScore: Option<int>)

  function ComputeStats(ms: seq<Monitor>, userCnt: nat): (s: Stats)
    ensures s.total == |ms| && s.userCnt == userCnt
    ensures s.up + s.down + s.slow <= s.total
    ensures s.issues == s.down + s.slow
    ensures s.p95Response >= 0
    ensures s.healthScore.None? <==> |ms| == 0
    ensures |ms| == 0 ==> s.avgResponseTime == 0
    ensures s.up == Count(ms, Up) && s.down == Count(ms, Down) && s.slow == Count(ms, Slow)
    ensures s.p95Response == Percentile(ResponseTimes(ms), 95)
    ensures s.healthScore == HealthScore(ms, s.p95Response)
    ensures s.avgResponseTime == MeanLatency(ms)
  {
    CountsSum(ms);
    P95NonNegative(ms);
    var p95 := Percentile(ResponseTimes(ms), 95);
    Stats(userCnt, |ms|, Count(ms, Up), Count(ms, Down), Count(ms, Slow), Count(ms, Down) + Count(ms, Slow),
          MeanLatency(ms), p95, HealthScore(ms, p95))
  }

  /** `avgResponseTime`: the mean latency rounded to the nearest integer (halves up), 0 without monitors. */
  function MeanLatency(ms: seq<Monitor>): (avg: int)
    ensures |ms| == 0 ==> avg == 0
    ensures |ms| > 0 ==> 2 * |ms| * avg <= 2 * TotalResponse(ms) + |ms| < 2 * |ms| * (avg + 1)
  {
    if |ms| > 0 then RoundDiv(TotalResponse(ms), |ms|) else 0
  }

  /** The rounded mean latency lies within the latencies' bounds. */
  lemma AverageBetween(ms: seq<Monitor>, lo: int, hi: int)
    requires |ms| > 0
    requires forall i :: 0 <= i < |ms| ==> lo <= ms[i].responseTime <= hi
    ensures lo <= MeanLatency(ms) <= hi
    ensures lo <= ComputeStats(ms, 0).avgResponseTime <= hi
  {
    TotalResponseBounds(ms, lo, hi);
    RoundDivBounds(TotalResponse(ms), |ms|, lo);
    RoundDivBounds(TotalResponse(ms), |ms|, hi);
  }

  /**
   * The overall uptime shown, in tenths of a percent (`toFixed(1)`): the
   * share of monitors that are up, rounded half up to a tenth, and 0 when
   * there are no monitors.
   */
  function UptimeShown(ms: seq<Monitor>): (tenths: int)
    ensures 0 <= tenths <= 1000
    ensures |ms| == 0 ==> tenths == 0
    ensures |ms| > 0 ==> 2 * |ms| * tenths <= 2000 * Count(ms, Up) + |ms| < 2 * |ms| * (tenths + 1)
    ensures (forall i :: 0 <= i < |ms| ==> ms[i].status == Up) && |ms| > 0 ==> tenths == 1000
  {
    if |ms| == 0 then 0
    else
      var up := Count(ms, Up);
      AllUpCount(ms);
      TenthsBounds(up, |ms|);
      RoundDiv(1000 * up, |ms|)
  }

  /** When every monitor is up, all of them are counted as up. */
  lemma AllUpCount(ms: seq<Monitor>)
    ensures (forall i :: 0 <= i < |ms| ==> ms[i].status == Up) ==> Count(ms, Up) == |ms|
  {
    if forall i :: 0 <= i < |ms| ==> ms[i].status == Up {
      assert forall m :: m in ms ==> m.status == Up;
      CountsSum(ms);
    }
  }

  /** `up` of `n` in tenths of a percent, rounded half up, lies within 0..1000 and is 1000 when all are up. */
  lemma TenthsBounds(up: nat, n: nat)
    requires 0 < n && up <= n
    ensures 0 <= RoundDiv(1000 * up, n) <= 1000
    ensures up == n ==> RoundDiv(1000 * up, n) == 1000
    ensures 2 * n * RoundDiv(1000 * up, n) <= 2000 * up + n < 2 * n * (RoundDiv(1000 * up, n) + 1)
  {
    RoundDivBounds(1000 * up, n, 1000);
  }

  // ---------------------------------------------------------------------
  // Tabs

  /** Which monitors a tab shows: the `up`, `down` and `slow` tabs their status, any other tab all. */
  predicate TabShows(tab: string, m: Monitor) {
    && (tab == "up" ==> m.status == Up)
    && (tab == "down" ==> m.status == Down)
    && (tab == "slow" ==> m.status == Slow)
  }

  /** `getFilteredMonitors`. */
  function FilterByTab(ms: seq<Monitor>, tab: string): (r: seq<Monitor>)
    ensures forall m :: m in r <==> m in ms && TabShows(tab, m)
    ensures tab != "up" && tab != "down" && tab != "slow" ==> r == ms
    ensures IsSubsequence(r, ms)
    ensures forall m :: multiset(r)[m] == if TabShows(tab, m) then multiset(ms)[m] else 0
  {
    FilterMeaning(ms, HasStatus(Up));
    FilterMeaning(ms, HasStatus(Down));
    FilterMeaning(ms, HasStatus(Slow));
    SubsequenceOfSelf(ms);
    if tab == "up" then Filter(ms, HasStatus(Up))
    else if tab == "down" then Filter(ms, HasStatus(Down))
    else if tab == "slow" then Filter(ms, HasStatus(Slow))
    else ms
  }
}
