/**
 * The two scheduled jobs: every minute each monitor that is not paused is
 * checked once by the probe its type selects and the outcome is written to
 * the store; every twelve hours the certificate of each active `https` monitor
 * is read and its snapshot stored. A job reads the monitor list once and then
 * walks that snapshot in id order.
 */
module Scheduler {
  import opened Wrappers
  import opened Text
  import opened Schema
  import opened Seqs
  import opened Store
  import opened Probes

  /** Which check a monitor's `type` selects. */
  datatype ProbeKind = DnsProbe | PingProbe | HttpProbe

  function ProbeFor(kind: string): (p: ProbeKind)
    ensures p == DnsProbe <==> kind == "dns"
    ensures p == PingProbe <==> kind == "icmp"
    ensures p == HttpProbe <==> kind != "dns" && kind != "icmp"
  {
    if kind == "dns" then DnsProbe
    else if kind == "icmp" then PingProbe
    else HttpProbe
  }

  /** What the network would answer to each probe of one monitor, and how long the check took. */
  datatype Observation = Observation(dns: DnsReply, ping: PingReply, http: HttpReply, elapsedMs: int)

  /** The check the minute job runs for one monitor. */
  function Probe(m: Monitor, obs: Observation): (r: ProbeOutcome)
    ensures r.responseTime == obs.elapsedMs
    ensures ProbeFor(m.kind) == DnsProbe ==> r == CheckDns(m.url, obs.dns, obs.elapsedMs)
    ensures ProbeFor(m.kind) == PingProbe ==> r == CheckPing(m.url, obs.ping, obs.elapsedMs)
    ensures ProbeFor(m.kind) == HttpProbe ==> r == CheckHttp(obs.http, obs.elapsedMs)
  {
    match ProbeFor(m.kind)
    case DnsProbe => CheckDns(m.url, obs.dns, obs.elapsedMs)
    case PingProbe => CheckPing(m.url, obs.ping, obs.elapsedMs)
    case HttpProbe => CheckHttp(obs.http, obs.elapsedMs)
  }

  /**
   * Whatever the probe, a recorded error means `down`, and a healthy status
   * means the probe succeeded within the latency thresholds.
   */
  lemma ProbeVerdicts(m: Monitor, obs: Observation)
    ensures Probe(m, obs).error.Some? ==> Probe(m, obs).status == Down
    ensures Probe(m, obs).status != Down ==> Probe(m, obs).error.None?
    ensures ProbeFor(m.kind) != PingProbe && Probe(m, obs).status == Up ==> obs.elapsedMs < UpBelowMs
    ensures ProbeFor(m.kind) == PingProbe && Probe(m, obs).status == Up ==>
      obs.ping.PingAnswer? && obs.ping.alive && obs.ping.time.GetOr(obs.elapsedMs) < UpBelowMs
    ensures ProbeFor(m.kind) == HttpProbe && Probe(m, obs).status != Down ==>
      obs.http.HttpResponse? && obs.http.statusCode == 200
  {
  }

  // ---------------------------------------------------------------------
  // The minute job

  /** One `updateMonitorStatus` call the minute job makes. */
  datatype Check = Check(monitorId: nat, outcome: ProbeOutcome)

  function Active(): Monitor -> bool {
    (m: Monitor) => !m.paused
  }

  /** The calls the minute job makes for one monitor: none when it is paused. */
  function CheckStep(m: Monitor, obs: Observation): seq<Check> {
    if m.paused then [] else [Check(m.id, Probe(m, obs))]
  }

  /** The calls one minute job makes, in order, for a snapshot of the monitor list. */
  function TickPlan(ms: seq<Monitor>, net: nat -> Observation): (plan: seq<Check>)
    decreases |ms|
  {
    if |ms| == 0 then []
    else
      var m := ms[|ms| - 1];
      TickPlan(ms[..|ms| - 1], net) + CheckStep(m, net(m.id))
  }

  /** The plan checks exactly the monitors that are not paused, each once, in list order. */
  lemma {:induction false} TickPlanChecksActive(ms: seq<Monitor>, net: nat -> Observation)
    ensures var active := Filter(ms, Active());
      && |TickPlan(ms, net)| == |active|
      && forall k :: 0 <= k < |active| ==>
           TickPlan(ms, net)[k] == Check(active[k].id, Probe(active[k], net(active[k].id)))
    decreases |ms|
  {
    if |ms| > 0 {
      TickPlanChecksActive(ms[..|ms| - 1], net);
    }
  }

  /** With unique ids, a paused monitor is never checked and an active one is checked exactly once. */
  lemma TickPlanOncePerMonitor(ms: seq<Monitor>, net: nat -> Observation, i: nat)
    requires forall a, b :: 0 <= a < b < |ms| ==> ms[a].id < ms[b].id
    requires i < |ms|
    ensures ms[i].paused ==> forall c :: c in TickPlan(ms, net) ==> c.monitorId != ms[i].id
    ensures !ms[i].paused ==> multiset(TickPlan(ms, net))[Check(ms[i].id, Probe(ms[i], net(ms[i].id)))] == 1
  {
    TickPlanAround(ms, net, i);
  }

  /** The plan splits around any monitor of the snapshot. */
  lemma TickPlanAround(ms: seq<Monitor>, net: nat -> Observation, i: nat)
    requires forall a, b :: 0 <= a < b < |ms| ==> ms[a].id < ms[b].id
    requires i < |ms|
    ensures var before, after := TickPlan(ms[..i], net), TickPlan(ms[i + 1..], net);
      && (forall c :: c in before ==> c.monitorId < ms[i].id)
      && (forall c :: c in after ==> c.monitorId > ms[i].id)
      && TickPlan(ms, net) == before + (if ms[i].paused then [] else [Check(ms[i].id, Probe(ms[i], net(ms[i].id)))]) + after
  {
    var before, after := TickPlan(ms[..i], net), TickPlan(ms[i + 1..], net);
    TickPlanIdsAround(ms, net, i);
    assert TickPlan(ms, net) == before + CheckStep(ms[i], net(ms[i].id)) + after by {
      assert ms == ms[..i] + [ms[i]] + ms[i + 1..];
      TickPlanAppend(ms[..i], [ms[i]], net);
      TickPlanAppend(ms[..i] + [ms[i]], ms[i + 1..], net);
      assert [ms[i]][..0] == [];
    }
  }

  /** With ids increasing along the list, the plan before a monitor checks smaller ids and the plan after it larger ones. */
  lemma TickPlanIdsAround(ms: seq<Monitor>, net: nat -> Observation, i: nat)
    requires forall a, b :: 0 <= a < b < |ms| ==> ms[a].id < ms[b].id
    requires i < |ms|
    ensures forall c :: c in TickPlan(ms[..i], net) ==> c.monitorId < ms[i].id
    ensures forall c :: c in TickPlan(ms[i + 1..], net) ==> c.monitorId > ms[i].id
  {
    TickPlanIds(ms[..i], net);
    TickPlanIds(ms[i + 1..], net);
    forall c | c in TickPlan(ms[..i], net)
      ensures c.monitorId < ms[i].id
    {
      var m :| m in ms[..i] && !m.paused && c.monitorId == m.id;
      var j :| 0 <= j < i && ms[..i][j] == m;
      assert ms[j] == m;
    }
    forall c | c in TickPlan(ms[i + 1..], net)
      ensures c.monitorId > ms[i].id
    {
      var m :| m in ms[i + 1..] && !m.paused && c.monitorId == m.id;
      var j :| 0 <= j < |ms| - i - 1 && ms[i + 1..][j] == m;
      assert ms[i + 1 + j] == m;
    }
  }

  /** Every check in a plan is for a monitor of the snapshot that is not paused. */
  lemma {:induction false} TickPlanIds(ms: seq<Monitor>, net: nat -> Observation)
    ensures forall c :: c in TickPlan(ms, net) ==> exists m :: m in ms && !m.paused && c.monitorId == m.id
    decreases |ms|
  {
    if |ms| > 0 {
      TickPlanIds(ms[..|ms| - 1], net);
      forall c | c in TickPlan(ms, net) ensures exists m :: m in ms && !m.paused && c.monitorId == m.id {
        if c in TickPlan(ms[..|ms| - 1], net) {
          var m :| m in ms[..|ms| - 1] && !m.paused && c.monitorId == m.id;
          assert m in ms;
        } else {
          assert ms[|ms| - 1] in ms;
        }
      }
    }
  }

  /** The plan of a concatenated snapshot is the concatenation of the plans. */
  lemma {:induction false} TickPlanAppend(a: seq<Monitor>, b: seq<Monitor>, net: nat -> Observation)
    ensures TickPlan(a + b, net) == TickPlan(a, net) + TickPlan(b, net)
    decreases |b|
  {
    if |b| == 0 {
      assert a + b == a;
    } else {
      var b', m := b[..|b| - 1], b[|b| - 1];
      assert (a + b)[..|a + b| - 1] == a + b';
      assert (a + b)[|a + b| - 1] == m;
      TickPlanAppend(a, b', net);
      var tail := CheckStep(m, net(m.id));
      assert TickPlan(a + b, net) == TickPlan(a + b', net) + tail;
      assert TickPlan(b, net) == TickPlan(b', net) + tail;
    }
  }

  /** The history rows the calls of a plan append, numbered from `firstId`. */
  function HistoryRows(plan: seq<Check>, firstId: nat, now: int): (rows: seq<HistoryRow>)
    ensures |rows| == |plan|
    ensures forall k :: 0 <= k < |plan| ==>
      rows[k] == HistoryRow(firstId + k, plan[k].monitorId, plan[k].outcome.status,
                            plan[k].outcome.responseTime, plan[k].outcome.error, now)
  {
    seq(|plan|, k requires 0 <= k < |plan| =>
      HistoryRow(firstId + k, plan[k].monitorId, plan[k].outcome.status,
                 plan[k].outcome.responseTime, plan[k].outcome.error, now))
  }

  /** The monitor table after the `UPDATE` of every call of a plan, applied in order. */
  function ApplyChecks(ms: seq<Monitor>, plan: seq<Check>, now: int): (r: seq<Monitor>)
    ensures |r| == |ms|
    ensures forall i :: 0 <= i < |ms| ==> r[i].id == ms[i].id && r[i].paused == ms[i].paused
    decreases |plan|
  {
    if |plan| == 0 then ms
    else
      var c := plan[|plan| - 1];
      UpdateWhere(ApplyChecks(ms, plan[..|plan| - 1], now), c.monitorId,
                  SetStatus(c.outcome.status, c.outcome.responseTime, now))
  }

  /** A monitor no call of the plan names keeps its row. */
  lemma {:induction false} ApplyChecksUntouched(ms: seq<Monitor>, plan: seq<Check>, now: int, i: nat)
    requires i < |ms|
    requires forall c :: c in plan ==> c.monitorId != ms[i].id
    ensures ApplyChecks(ms, plan, now)[i] == ms[i]
    decreases |plan|
  {
    if |plan| > 0 {
      ApplyChecksUntouched(ms, plan[..|plan| - 1], now, i);
    }
  }

  /** The last call of a plan for a monitor decides its status and latency. */
  lemma {:induction false} ApplyChecksLast(ms: seq<Monitor>, plan: seq<Check>, now: int, i: nat)
    requires i < |ms| && |plan| > 0 && plan[|plan| - 1].monitorId == ms[i].id
    ensures ApplyChecks(ms, plan, now)[i].status == plan[|plan| - 1].outcome.status
    ensures ApplyChecks(ms, plan, now)[i].responseTime == plan[|plan| - 1].outcome.responseTime
    ensures ApplyChecks(ms, plan, now)[i].lastChecked == now
  {
  }

  /**
   * The minute job's work for one monitor of the snapshot: nothing when it is
   * paused, otherwise the probe its type selects and one `updateMonitorStatus`
   * with the outcome, whose result the job ignores. `fault` says whether the
   * store's `UPDATE` fails; then nothing is written.
   */
  method CheckMonitor(db: Database, m: Monitor, obs: Observation, fault: bool, now: int)
    requires db.Valid() && HasMonitor(db.monitors, m.id)
    modifies db`monitors, db`history, db`nextHistoryId
    ensures db.Valid()
    ensures var step := StepFor(m, obs, fault);
      && db.history == old(db.history) + HistoryRows(step, old(db.nextHistoryId), now)
      && db.nextHistoryId == old(db.nextHistoryId) + |step|
      && db.monitors == ApplyChecks(old(db.monitors), step, now)
  {
    if !m.paused {
      var outcome := Probe(m, obs);
      var r := db.UpdateMonitorStatus(m.id, outcome.status, outcome.responseTime, outcome.error, now, fault);
      assert [Check(m.id, outcome)][..0] == [];
    }
  }

  /** The calls of one monitor's step that the store records. */
  function StepFor(m: Monitor, obs: Observation, fault: bool): seq<Check> {
    if fault then [] else CheckStep(m, obs)
  }

  /** The calls whose `UPDATE` the store carries out: those for a monitor without a fault. */
  function Committed(faults: nat -> bool): Check -> bool {
    (c: Check) => !faults(c.monitorId)
  }

  /** The calls of a plan that leave a trace in the store. */
  function Recorded(ms: seq<Monitor>, net: nat -> Observation, faults: nat -> bool): seq<Check> {
    Filter(TickPlan(ms, net), Committed(faults))
  }

  /** Without store faults every planned call is recorded. */
  lemma RecordedWithoutFaults(ms: seq<Monitor>, net: nat -> Observation, faults: nat -> bool)
    requires forall id :: !faults(id)
    ensures Recorded(ms, net, faults) == TickPlan(ms, net)
  {
    FilterAllOrNone(TickPlan(ms, net), Committed(faults));
  }

  /**
   * The minute job: when reading the monitor list fails (`listFailed`) it
   * only logs and the store is left as it was; otherwise one status update
   * (and so one history row) per monitor that is not paused, with the outcome
   * of the probe its type selects, except that a monitor whose update the
   * store refuses (`faults`) is left as it was. `net` gives the network's
   * answers and `now` the clock.
   */
  method RunCheckTick(db: Database, net: nat -> Observation, faults: nat -> bool, listFailed: bool, now: int)
    requires db.Valid()
    modifies db`monitors, db`history, db`nextHistoryId
    ensures db.Valid()
    ensures listFailed ==>
      db.history == old(db.history) && db.monitors == old(db.monitors) && db.nextHistoryId == old(db.nextHistoryId)
    ensures !listFailed ==>
      var done := Recorded(old(db.monitors), net, faults);
      && db.history == old(db.history) + HistoryRows(done, old(db.nextHistoryId), now)
      && db.nextHistoryId == old(db.nextHistoryId) + |done|
      && db.monitors == ApplyChecks(old(db.monitors), done, now)
  {
    if !listFailed {
      CheckSnapshot(db, net, faults, now);
    }
  }

  /** The loop of the minute job over the monitor list it read. */
  method CheckSnapshot(db: Database, net: nat -> Observation, faults: nat -> bool, now: int)
    requires db.Valid()
    modifies db`monitors, db`history, db`nextHistoryId
    ensures db.Valid()
    ensures var done := Recorded(old(db.monitors), net, faults);
      && db.history == old(db.history) + HistoryRows(done, old(db.nextHistoryId), now)
      && db.nextHistoryId == old(db.nextHistoryId) + |done|
      && db.monitors == ApplyChecks(old(db.monitors), done, now)
  {
    var snapshot := db.monitors;
    ghost var history0, next0 := db.history, db.nextHistoryId;
    var i := 0;
    while i < |snapshot|
      invariant 0 <= i <= |snapshot|
      invariant db.Valid()
      invariant var done := Recorded(snapshot[..i], net, faults);
        && db.history == history0 + HistoryRows(done, next0, now)
        && db.nextHistoryId == next0 + |done|
        && db.monitors == ApplyChecks(snapshot, done, now)
    {
      CheckNext(db, snapshot, i, net, faults, now, history0, next0);
      i := i + 1;
    }
    assert snapshot[..i] == snapshot;
  }

  /** One iteration of the minute job's loop: the recorded calls grow by the `i`-th monitor's step. */
  method CheckNext(db: Database, snapshot: seq<Monitor>, i: nat, net: nat -> Observation, faults: nat -> bool, now: int,
                   ghost history0: seq<HistoryRow>, ghost next0: nat)
    requires db.Valid() && i < |snapshot|
    requires var done := Recorded(snapshot[..i], net, faults);
      && db.history == history0 + HistoryRows(done, next0, now)
      && db.nextHistoryId == next0 + |done|
      && db.monitors == ApplyChecks(snapshot, done, now)
    modifies db`monitors, db`history, db`nextHistoryId
    ensures db.Valid()
    ensures var done := Recorded(snapshot[..i + 1], net, faults);
      && db.history == history0 + HistoryRows(done, next0, now)
      && db.nextHistoryId == next0 + |done|
      && db.monitors == ApplyChecks(snapshot, done, now)
  {
    var m := snapshot[i];
    ghost var done := Recorded(snapshot[..i], net, faults);
    ghost var step := StepFor(m, net(m.id), faults(m.id));
    RecordedStep(snapshot, i, net, faults);
    assert db.monitors[i].id == m.id;
    ghost var h, n, ms := db.history, db.nextHistoryId, db.monitors;
    CheckMonitor(db, m, net(m.id), faults(m.id), now);
    TickStep(history0, snapshot, done, step, next0, now, h, n, ms, db.history, db.nextHistoryId, db.monitors);
  }

  lemma TickPlanStep(ms: seq<Monitor>, i: nat, net: nat -> Observation)
    requires i < |ms|
    ensures TickPlan(ms[..i + 1], net) == TickPlan(ms[..i], net) + CheckStep(ms[i], net(ms[i].id))
  {
    assert ms[..i + 1][..i] == ms[..i];
  }

  /** One more monitor of the snapshot adds its call to the recorded ones unless its update faults. */
  lemma RecordedStep(ms: seq<Monitor>, i: nat, net: nat -> Observation, faults: nat -> bool)
    requires i < |ms|
    ensures Recorded(ms[..i + 1], net, faults) ==
      Recorded(ms[..i], net, faults) + StepFor(ms[i], net(ms[i].id), faults(ms[i].id))
  {
    var step := CheckStep(ms[i], net(ms[i].id));
    TickPlanStep(ms, i, net);
    FilterAppend(TickPlan(ms[..i], net), step, Committed(faults));
    if |step| > 0 {
      assert step == [] + [step[0]];
    }
  }

  /** The job's state after `plan` and then `step` is its state after `plan + step`. */
  lemma TickStep(history0: seq<HistoryRow>, ms: seq<Monitor>, plan: seq<Check>, step: seq<Check>, firstId: nat, now: int,
                 h: seq<HistoryRow>, n: nat, m: seq<Monitor>, h': seq<HistoryRow>, n': nat, m': seq<Monitor>)
    requires h == history0 + HistoryRows(plan, firstId, now) && n == firstId + |plan| && m == ApplyChecks(ms, plan, now)
    requires h' == h + HistoryRows(step, n, now) && n' == n + |step| && m' == ApplyChecks(m, step, now)
    ensures h' == history0 + HistoryRows(plan + step, firstId, now)
    ensures n' == firstId + |plan + step|
    ensures m' == ApplyChecks(ms, plan + step, now)
  {
    HistoryRowsAppend(plan, step, firstId, now);
    AppendAssoc(history0, HistoryRows(plan, firstId, now), HistoryRows(step, firstId + |plan|, now));
    ApplyChecksAppend(ms, plan, step, now);
  }

  /** Numbering the rows of two plans in turn numbers the rows of their concatenation. */
  lemma HistoryRowsAppend(p: seq<Check>, q: seq<Check>, firstId: nat, now: int)
    ensures HistoryRows(p + q, firstId, now) == HistoryRows(p, firstId, now) + HistoryRows(q, firstId + |p|, now)
  {
  }

  /** Applying two plans in turn applies their concatenation. */
  lemma {:induction false} ApplyChecksAppend(ms: seq<Monitor>, p: seq<Check>, q: seq<Check>, now: int)
    ensures ApplyChecks(ApplyChecks(ms, p, now), q, now) == ApplyChecks(ms, p + q, now)
    decreases |q|
  {
    if |q| == 0 {
      assert p + q == p;
    } else {
      var q' := q[..|q| - 1];
      assert (p + q)[..|p + q| - 1] == p + q';
      ApplyChecksAppend(ms, p, q', now);
    }
  }

  // ---------------------------------------------------------------------
  // The twelve-hour job

  /** The certificate job only looks at active monitors whose url, lower-cased, starts with `https://`. */
  predicate WantsCertificate(m: Monitor) {
    !m.paused && StartsWith(ToLower(m.url), "https://")
  }

  /** One `updateMonitorSSL` call. */
  datatype SslUpdate = SslUpdate(monitorId: nat, info: SslInfo)

  /** The calls one certificate job makes; `certs` gives what the checker reports per monitor id. */
  function SslPlan(ms: seq<Monitor>, certs: nat -> Option<SslReport>): (plan: seq<SslUpdate>)
    decreases |ms|
  {
    if |ms| == 0 then []
    else
      var m := ms[|ms| - 1];
      var info := CheckSsl(m.url, certs(m.id));
      SslPlan(ms[..|ms| - 1], certs) +
        if WantsCertificate(m) && info.Some? then [SslUpdate(m.id, info.value)] else []
  }

  /** Every stored snapshot belongs to an active `https` monitor and is the mapped report of its certificate. */
  lemma {:induction false} SslPlanTargets(ms: seq<Monitor>, certs: nat -> Option<SslReport>)
    ensures forall u :: u in SslPlan(ms, certs) ==>
      exists m :: m in ms && WantsCertificate(m) && u.monitorId == m.id && CheckSsl(m.url, certs(m.id)) == Some(u.info)
    decreases |ms|
  {
    if |ms| > 0 {
      var init := ms[..|ms| - 1];
      SslPlanTargets(init, certs);
      forall u | u in SslPlan(ms, certs)
        ensures exists m :: m in ms && WantsCertificate(m) && u.monitorId == m.id && CheckSsl(m.url, certs(m.id)) == Some(u.info)
      {
        if u in SslPlan(init, certs) {
          var m :| m in init && WantsCertificate(m) && u.monitorId == m.id && CheckSsl(m.url, certs(m.id)) == Some(u.info);
          assert m in ms;
        } else {
          assert ms[|ms| - 1] in ms;
        }
      }
    }
  }

  /** The monitor table after every call of a certificate plan. */
  function ApplySsl(ms: seq<Monitor>, plan: seq<SslUpdate>): (r: seq<Monitor>)
    ensures |r| == |ms|
    ensures forall i :: 0 <= i < |ms| ==> r[i].id == ms[i].id
    decreases |plan|
  {
    if |plan| == 0 then ms
    else
      var u := plan[|plan| - 1];
      UpdateWhere(ApplySsl(ms, plan[..|plan| - 1]), u.monitorId, SetSsl(u.info))
  }

  /** A certificate job changes nothing but the `ssl` snapshots. */
  lemma {:induction false} ApplySslOnlySnapshots(ms: seq<Monitor>, plan: seq<SslUpdate>, i: nat)
    requires i < |ms|
    ensures ApplySsl(ms, plan)[i] == ms[i].(ssl := ApplySsl(ms, plan)[i].ssl)
    decreases |plan|
  {
    if |plan| > 0 {
      ApplySslOnlySnapshots(ms, plan[..|plan| - 1], i);
    }
  }

  function Stored(faults: nat -> bool): SslUpdate -> bool {
    (u: SslUpdate) => !faults(u.monitorId)
  }

  /** The snapshot writes of a certificate job that the store accepts. */
  function SslWritten(ms: seq<Monitor>, certs: nat -> Option<SslReport>, faults: nat -> bool): seq<SslUpdate> {
    Filter(SslPlan(ms, certs), Stored(faults))
  }

  /** Without store faults every planned snapshot is written. */
  lemma SslWrittenWithoutFaults(ms: seq<Monitor>, certs: nat -> Option<SslReport>, faults: nat -> bool)
    requires forall id :: !faults(id)
    ensures SslWritten(ms, certs, faults) == SslPlan(ms, certs)
  {
    FilterAllOrNone(SslPlan(ms, certs), Stored(faults));
  }

  /**
   * The twelve-hour job: when reading the monitor list fails (`listFailed`)
   * it returns at once and the monitors are left as they were; otherwise
   * each active `https` monitor whose certificate the checker reports gets
   * that snapshot, except one whose `UPDATE` the store refuses (`faults`),
   * which keeps its old snapshot. `certs` gives the checker's answers.
   */
  method RunSslTick(db: Database, certs: nat -> Option<SslReport>, faults: nat -> bool, listFailed: bool)
    requires db.Valid()
    modifies db`monitors
    ensures db.Valid()
    ensures listFailed ==> db.monitors == old(db.monitors)
    ensures !listFailed ==> db.monitors == ApplySsl(old(db.monitors), SslWritten(old(db.monitors), certs, faults))
  {
    if listFailed {
      return;
    }
    var snapshot := db.monitors;
    var i := 0;
    while i < |snapshot|
      invariant 0 <= i <= |snapshot|
      invariant db.Valid()
      invariant db.monitors == ApplySsl(snapshot, SslWritten(snapshot[..i], certs, faults))
    {
      SslNext(db, snapshot, i, certs, faults);
      i := i + 1;
    }
    assert snapshot[..i] == snapshot;
  }

  /** One iteration of the twelve-hour job: the certificate step for `snapshot[i]`. */
  method SslNext(db: Database, snapshot: seq<Monitor>, i: nat, certs: nat -> Option<SslReport>, faults: nat -> bool)
    requires i < |snapshot| && db.Valid()
    requires db.monitors == ApplySsl(snapshot, SslWritten(snapshot[..i], certs, faults))
    modifies db`monitors
    ensures db.Valid()
    ensures db.monitors == ApplySsl(snapshot, SslWritten(snapshot[..i + 1], certs, faults))
  {
    var m := snapshot[i];
    ghost var written, next := SslWritten(snapshot[..i], certs, faults), SslWritten(snapshot[..i + 1], certs, faults);
    SslWrittenStep(snapshot, i, certs, faults);
    if WantsCertificate(m) {
      var info := CheckSsl(m.url, certs(m.id));
      if info.Some? {
        var outcome := db.UpdateMonitorSsl(m.id, info.value, faults(m.id));
        if outcome.Pass? {
          SslStep(snapshot, written, SslUpdate(m.id, info.value));
          assert next == written + [SslUpdate(m.id, info.value)];
        } else {
          assert next == written;
        }
      } else {
        assert next == written;
      }
    } else {
      assert next == written;
    }
  }

  /** One more monitor adds its snapshot write to the accepted ones when it is planned and the store takes it. */
  lemma SslWrittenStep(ms: seq<Monitor>, i: nat, certs: nat -> Option<SslReport>, faults: nat -> bool)
    requires i < |ms|
    ensures var info := CheckSsl(ms[i].url, certs(ms[i].id));
      SslWritten(ms[..i + 1], certs, faults) == SslWritten(ms[..i], certs, faults) +
        if WantsCertificate(ms[i]) && info.Some? && !faults(ms[i].id) then [SslUpdate(ms[i].id, info.value)] else []
  {
    var info := CheckSsl(ms[i].url, certs(ms[i].id));
    var step := if WantsCertificate(ms[i]) && info.Some? then [SslUpdate(ms[i].id, info.value)] else [];
    SslPlanStep(ms, i, certs);
    FilterAppend(SslPlan(ms[..i], certs), step, Stored(faults));
  }

  lemma SslPlanStep(ms: seq<Monitor>, i: nat, certs: nat -> Option<SslReport>)
    requires i < |ms|
    ensures var info := CheckSsl(ms[i].url, certs(ms[i].id));
      SslPlan(ms[..i + 1], certs) == SslPlan(ms[..i], certs) +
        if WantsCertificate(ms[i]) && info.Some? then [SslUpdate(ms[i].id, info.value)] else []
  {
    assert ms[..i + 1][..i] == ms[..i];
  }

  lemma SslStep(ms: seq<Monitor>, plan: seq<SslUpdate>, u: SslUpdate)
    ensures ApplySsl(ms, plan + [u]) == UpdateWhere(ApplySsl(ms, plan), u.monitorId, SetSsl(u.info))
  {
    assert (plan + [u])[..|plan|] == plan;
  }
}
