/**
 * The store: the monitor, history and user tables held in memory by one
 * object, and the statements the backend runs against them. Each method
 * mirrors one exported function of the database layer; rows are kept in id
 * order, the order `ORDER BY id` and the implicit rowid order give.
 */
module Store {
  import opened Wrappers
  import opened Schema
  import opened Seqs
  import opened Sorting
  import opened Numeric

  /** How many rows the history query returns (`LIMIT 30`). */
  const HistoryLimit: nat := 30

  /** The uptime window, `datetime('now', '-24 hours')`, in milliseconds. */
  const DayMs: int := 24 * 60 * 60 * 1000

  /** A JSON request-body value, as far as its truthiness goes. */
  datatype JsonValue = JNull | JBool(b: bool) | JNumber(n: int) | JString(s: string) | JObject

  predicate Truthy(v: JsonValue) {
    match v
    case JNull => false
    case JBool(b) => b
    case JNumber(n) => n != 0
    case JString(s) => s != ""
    case JObject => true
  }

  /**
   * Percentage of `up` rows in tenths of a percent, as `toFixed(1)` prints it:
   * the nearest tenth, halves rounded up; 100.0 when there are no rows.
   */
  function UptimeTenths(rows: seq<HistoryRow>): (pct: nat)
    ensures pct <= 1000
    ensures |rows| == 0 ==> pct == 1000
    ensures |rows| > 0 ==>
      var up := |Filter(rows, IsUp())|;
      2 * |rows| * pct <= 2000 * up + |rows| < 2 * |rows| * (pct + 1)
  {
    if |rows| == 0 then 1000
    else
      var up := |Filter(rows, IsUp())|;
      RoundDivBounds(1000 * up, |rows|, 1000);
      RoundDiv(1000 * up, |rows|)
  }

  /** All-up rows read 100.0 and rows with no `up` read 0.0. */
  lemma UptimeExtremes(rows: seq<HistoryRow>)
    ensures (forall i :: 0 <= i < |rows| ==> rows[i].status == Up) ==> UptimeTenths(rows) == 1000
    ensures |rows| > 0 && (forall i :: 0 <= i < |rows| ==> rows[i].status != Up) ==> UptimeTenths(rows) == 0
  {
    FilterAllOrNone(rows, IsUp());
    var up := |Filter(rows, IsUp())|;
    if |rows| > 0 {
      RoundDivBounds(1000 * up, |rows|, 1000);
      RoundDivBounds(1000 * up, |rows|, 0);
    }
  }

  /** Removing one monitor and its history keeps every table constraint. */
  lemma DeleteKeepsMonitors(ms: seq<Monitor>, id: nat, nextId: nat)
    requires MonitorsWellFormed(ms, nextId)
    ensures MonitorsWellFormed(Filter(ms, NotMonitor(id)), nextId)
    ensures !HasMonitor(Filter(ms, NotMonitor(id)), id)
  {
    var f := Filter(ms, NotMonitor(id));
    FilterPairwise(ms, NotMonitor(id), (a: Monitor, b: Monitor) => a.id < b.id);
    FilterPairwise(ms, NotMonitor(id), (a: Monitor, b: Monitor) => a.url != b.url || a.kind != b.kind);
    forall i | 0 <= i < |f| ensures 0 < f[i].id < nextId && f[i].id != id {
      assert f[i] in f;
    }
  }

  lemma DeleteKeepsHistory(hs: seq<HistoryRow>, ms: seq<Monitor>, id: nat, nextId: nat)
    requires HistoryWellFormed(hs, ms, nextId)
    ensures HistoryWellFormed(Filter(hs, NotOfMonitor(id)), Filter(ms, NotMonitor(id)), nextId)
  {
    var f := Filter(hs, NotOfMonitor(id));
    var g := Filter(ms, NotMonitor(id));
    FilterPairwise(hs, NotOfMonitor(id), (a: HistoryRow, b: HistoryRow) => a.id < b.id);
    forall i | 0 <= i < |f| ensures 0 < f[i].id < nextId && HasMonitor(g, f[i].monitorId) {
      var h := f[i];
      assert h in f;
      var k :| 0 <= k < |hs| && hs[k] == h;
      var j :| 0 <= j < |ms| && ms[j].id == h.monitorId;
      assert ms[j] in g;
      var j' :| 0 <= j' < |g| && g[j'] == ms[j];
    }
  }

  /** An edit that keeps every monitor id in place keeps the history's foreign keys valid. */
  lemma SameIdsKeepHistory(hs: seq<HistoryRow>, ms: seq<Monitor>, ms': seq<Monitor>, nextId: nat)
    requires HistoryWellFormed(hs, ms, nextId)
    requires |ms'| == |ms| && forall i :: 0 <= i < |ms| ==> ms'[i].id == ms[i].id
    ensures HistoryWellFormed(hs, ms', nextId)
  {
    forall i | 0 <= i < |hs| ensures HasMonitor(ms', hs[i].monitorId) {
      var j :| 0 <= j < |ms| && ms[j].id == hs[i].monitorId;
      assert ms'[j].id == hs[i].monitorId;
    }
  }

  /** `UPDATE monitors SET ... WHERE id = ?`: `f` applied to the row with that id, every other row as it was. */
  function UpdateWhere(ms: seq<Monitor>, id: nat, f: Monitor -> Monitor): (r: seq<Monitor>)
    ensures |r| == |ms|
    ensures forall i :: 0 <= i < |ms| ==> r[i] == if ms[i].id == id then f(ms[i]) else ms[i]
  {
    seq(|ms|, i requires 0 <= i < |ms| => if ms[i].id == id then f(ms[i]) else ms[i])
  }

  /** The row edits the `UPDATE monitors SET ...` statements make. */
  function SetStatus(status: Status, responseTime: int, now: int): Monitor -> Monitor {
    (m: Monitor) => m.(status := status, responseTime := responseTime, lastChecked := now)
  }

  function SetDetails(name: string, url: string, kind: string): Monitor -> Monitor {
    (m: Monitor) => m.(name := name, url := url, kind := kind)
  }

  function SetFavicon(favicon: string): Monitor -> Monitor {
    (m: Monitor) => m.(favicon := Some(favicon))
  }

  function SetSsl(info: SslInfo): Monitor -> Monitor {
    (m: Monitor) => m.(ssl := Some(info))
  }

  function SetPaused(paused: bool): Monitor -> Monitor {
    (m: Monitor) => m.(paused := paused)
  }

  /** An edit that keeps every id, url and type in place keeps the monitor table's constraints. */
  lemma SameKeysKeepMonitors(ms: seq<Monitor>, ms': seq<Monitor>, nextId: nat)
    requires MonitorsWellFormed(ms, nextId)
    requires |ms'| == |ms|
    requires forall i :: 0 <= i < |ms| ==> ms'[i].id == ms[i].id && ms'[i].url == ms[i].url && ms'[i].kind == ms[i].kind
    ensures MonitorsWellFormed(ms', nextId)
  {
  }

  /** A history row with the next id and an existing monitor keeps the history's constraints. */
  lemma AppendRowKeepsHistory(hs: seq<HistoryRow>, ms: seq<Monitor>, row: HistoryRow, nextId: nat)
    requires HistoryWellFormed(hs, ms, nextId)
    requires row.id == nextId && HasMonitor(ms, row.monitorId)
    ensures HistoryWellFormed(hs + [row], ms, nextId + 1)
  {
    var hs' := hs + [row];
    forall i | 0 <= i < |hs'| ensures HasMonitor(ms, hs'[i].monitorId) {
      if i < |hs| {
        assert hs'[i] == hs[i];
      }
    }
  }

  /** A status update with its history row keeps both tables' constraints. */
  lemma StatusUpdateKeeps(ms: seq<Monitor>, hs: seq<HistoryRow>, id: nat, status: Status, responseTime: int,
                          error: Option<string>, now: int, nextMonitorId: nat, nextHistoryId: nat)
    requires MonitorsWellFormed(ms, nextMonitorId) && HistoryWellFormed(hs, ms, nextHistoryId)
    requires HasMonitor(ms, id)
    ensures var ms' := UpdateWhere(ms, id, SetStatus(status, responseTime, now));
      && MonitorsWellFormed(ms', nextMonitorId)
      && HistoryWellFormed(hs + [HistoryRow(nextHistoryId, id, status, responseTime, error, now)], ms', nextHistoryId + 1)
  {
    var ms' := UpdateWhere(ms, id, SetStatus(status, responseTime, now));
    SameKeysKeepMonitors(ms, ms', nextMonitorId);
    SameIdsKeepHistory(hs, ms, ms', nextHistoryId);
    var j :| 0 <= j < |ms| && ms[j].id == id;
    assert ms'[j].id == id;
    AppendRowKeepsHistory(hs, ms', HistoryRow(nextHistoryId, id, status, responseTime, error, now), nextHistoryId);
  }

  /** Appending a monitor keeps the history's foreign keys valid. */
  lemma AppendKeepsHistory(hs: seq<HistoryRow>, ms: seq<Monitor>, m: Monitor, nextId: nat)
    requires HistoryWellFormed(hs, ms, nextId)
    ensures HistoryWellFormed(hs, ms + [m], nextId)
  {
    forall i | 0 <= i < |hs| ensures HasMonitor(ms + [m], hs[i].monitorId) {
      var j :| 0 <= j < |ms| && ms[j].id == hs[i].monitorId;
      assert (ms + [m])[j].id == hs[i].monitorId;
    }
  }

  class Database {
    var monitors: seq<Monitor>
    var history: seq<HistoryRow>
    var users: seq<User>
    var nextMonitorId: nat
    var nextHistoryId: nat
    var nextUserId: nat

    ghost predicate Valid()
      reads this
    {
      && MonitorsWellFormed(monitors, nextMonitorId)
      && HistoryWellFormed(history, monitors, nextHistoryId)
      && UsersWellFormed(users, nextUserId)
    }

    /** Empty tables, then the default administrator that start-up inserts into an empty `Users` table. */
    constructor (adminPasswordHash: string, now: int)
      ensures Valid()
      ensures monitors == [] && history == []
      ensures users == [User(1, "Admin", "admin", adminPasswordHash, "admin@uptimekit.local", "admin", "Approved", now)]
    {
      monitors := [];
      history := [];
      users := [User(1, "Admin", "admin", adminPasswordHash, "admin@uptimekit.local", "admin", "Approved", now)];
      nextMonitorId := 1;
      nextHistoryId := 1;
      nextUserId := 2;
    }

    /** `addMonitor`: a new row in state `unknown`, 0 ms, not paused; a second (url, type) pair is refused. */
    method AddMonitor(name: string, url: string, kind: string, createdBy: Option<int>, now: int)
      returns (r: Result<nat, DbError>)
      requires Valid()
      modifies this
      ensures Valid()
      ensures history == old(history) && users == old(users)
      ensures nextHistoryId == old(nextHistoryId) && nextUserId == old(nextUserId)
      ensures nextMonitorId == if r.Success? then old(nextMonitorId) + 1 else old(nextMonitorId)
      ensures r.Failure? <==> exists i :: 0 <= i < |old(monitors)| && old(monitors)[i].url == url && old(monitors)[i].kind == kind
      ensures r.Failure? ==> r.error == UniqueViolation && monitors == old(monitors)
      ensures r.Success? ==>
        && r.value == old(nextMonitorId)
        && monitors == old(monitors) + [Monitor(r.value, name, url, kind, Unknown, 0, now, false, createdBy, None, None)]
    {
      if exists i | 0 <= i < |monitors| :: monitors[i].url == url && monitors[i].kind == kind {
        return Failure(UniqueViolation);
      }
      var id := nextMonitorId;
      AppendKeepsHistory(history, monitors, Monitor(id, name, url, kind, Unknown, 0, now, false, createdBy, None, None), nextHistoryId);
      monitors := monitors + [Monitor(id, name, url, kind, Unknown, 0, now, false, createdBy, None, None)];
      nextMonitorId := nextMonitorId + 1;
      r := Success(id);
    }

    /** `deleteMonitor`: the row goes, and with foreign keys on, its history rows go with it. */
    method DeleteMonitor(id: nat)
      requires Valid()
      modifies this
      ensures Valid()
      ensures monitors == Filter(old(monitors), NotMonitor(id))
      ensures history == Filter(old(history), NotOfMonitor(id))
      ensures users == old(users)
      ensures !HasMonitor(monitors, id)
      ensures forall h :: h in history ==> h.monitorId != id
    {
      DeleteKeepsMonitors(monitors, id, nextMonitorId);
      DeleteKeepsHistory(history, monitors, id, nextHistoryId);
      monitors := Filter(monitors, NotMonitor(id));
      history := Filter(history, NotOfMonitor(id));
    }

    /**
     * `updateMonitorStatus`: UPDATE the monitor row, then INSERT one history row
     * with the same status, latency and error. An engine fault on the UPDATE
     * stops before the INSERT; for an absent id the UPDATE touches nothing and
     * the INSERT violates the foreign key.
     */
    method UpdateMonitorStatus(id: nat, status: Status, responseTime: int, error: Option<string>, now: int, fault: bool)
      returns (r: Outcome<DbError>)
      requires Valid()
      modifies this`monitors, this`history, this`nextHistoryId
      ensures Valid()
      ensures r.Pass? <==> !fault && HasMonitor(old(monitors), id)
      ensures r.Fail? ==>
        && r.error == (if fault then EngineFault else ForeignKeyViolation)
        && monitors == old(monitors) && history == old(history) && nextHistoryId == old(nextHistoryId)
      ensures r.Pass? ==>
        && monitors == UpdateWhere(old(monitors), id, SetStatus(status, responseTime, now))
        && history == old(history) + [HistoryRow(old(nextHistoryId), id, status, responseTime, error, now)]
        && nextHistoryId == old(nextHistoryId) + 1
    {
      if fault {
        r := Fail(EngineFault);
      } else if !HasMonitor(monitors, id) {
        r := Fail(ForeignKeyViolation);
      } else {
        StatusUpdateKeeps(monitors, history, id, status, responseTime, error, now, nextMonitorId, nextHistoryId);
        monitors := UpdateWhere(monitors, id, SetStatus(status, responseTime, now));
        history := history + [HistoryRow(nextHistoryId, id, status, responseTime, error, now)];
        nextHistoryId := nextHistoryId + 1;
        r := Pass;
      }
    }

    /** `updateMonitor`: edit name, url and type; a clash with another row's (url, type) is refused. */
    method UpdateMonitor(id: nat, name: string, url: string, kind: string) returns (r: Outcome<DbError>)
      requires Valid()
      modifies this`monitors
      ensures Valid()
      ensures r.Fail? <==> exists i :: 0 <= i < |old(monitors)| && old(monitors)[i].id != id
                                       && old(monitors)[i].url == url && old(monitors)[i].kind == kind
                                       && HasMonitor(old(monitors), id)
      ensures r.Fail? ==> r.error == UniqueViolation && monitors == old(monitors)
      ensures r.Pass? ==>
        && monitors == UpdateWhere(old(monitors), id, SetDetails(name, url, kind))
    {
      var ms := monitors;
      if (exists i | 0 <= i < |ms| :: ms[i].id == id)
        && (exists i | 0 <= i < |ms| :: ms[i].id != id && ms[i].url == url && ms[i].kind == kind)
      {
        return Fail(UniqueViolation);
      }
      monitors := UpdateWhere(ms, id, SetDetails(name, url, kind));
      SameIdsKeepHistory(history, ms, monitors, nextHistoryId);
      r := Pass;
    }

    /** `updateMonitorFavicon`. */
    method UpdateMonitorFavicon(id: nat, favicon: string)
      requires Valid()
      modifies this`monitors
      ensures Valid()
      ensures monitors == UpdateWhere(old(monitors), id, SetFavicon(favicon))
    {
      var ms := monitors;
      monitors := UpdateWhere(ms, id, SetFavicon(favicon));
      SameIdsKeepHistory(history, ms, monitors, nextHistoryId);
    }

    /**
     * `updateMonitorSSL`: the snapshot is replaced wholesale. A store fault
     * (`fault`) fails the statement and leaves the row as it was; an id with
     * no row matches nothing and is no error.
     */
    method UpdateMonitorSsl(id: nat, info: SslInfo, fault: bool) returns (r: Outcome<DbError>)
      requires Valid()
      modifies this`monitors
      ensures Valid()
      ensures r.Fail? <==> fault
      ensures r.Fail? ==> r.error == EngineFault && monitors == old(monitors)
      ensures r.Pass? ==> monitors == UpdateWhere(old(monitors), id, SetSsl(info))
    {
      if fault {
        r := Fail(EngineFault);
      } else {
        var ms := monitors;
        monitors := UpdateWhere(ms, id, SetSsl(info));
        SameIdsKeepHistory(history, ms, monitors, nextHistoryId);
        r := Pass;
      }
    }

    /** `toggleMonitorPause`: stores 1 for a truthy flag and 0 otherwise; nothing else changes. */
    method ToggleMonitorPause(id: nat, flag: JsonValue)
      requires Valid()
      modifies this`monitors
      ensures Valid()
      ensures monitors == UpdateWhere(old(monitors), id, SetPaused(Truthy(flag)))
    {
      var ms := monitors;
      monitors := UpdateWhere(ms, id, SetPaused(Truthy(flag)));
      SameIdsKeepHistory(history, ms, monitors, nextHistoryId);
    }

    /**
     * `getMonitorsForUser`: an admin sees every monitor, anyone else only the
     * monitors they created, in id order. `created_by = NULL` matches nothing.
     */
    function MonitorsForUser(role: string, userId: Option<int>): (r: seq<Monitor>)
      reads this
      requires Valid()
      ensures role == "admin" ==> r == monitors
      ensures role != "admin" ==> forall m :: m in r <==> m in monitors && userId.Some? && m.createdBy == userId
      ensures forall i, j :: 0 <= i < j < |r| ==> r[i].id < r[j].id
    {
      if role == "admin" then monitors
      else
        var mine := (m: Monitor) => userId.Some? && m.createdBy == userId;
        FilterPairwise(monitors, mine, (a: Monitor, b: Monitor) => a.id < b.id);
        Filter(monitors, mine)
    }

    /**
     * `getMonitorHistory`: the monitor's rows, newest `checked_at` first, at
     * most 30 of them, and no row left out is newer than one returned.
     */
    function MonitorHistory(id: nat): (r: seq<HistoryRow>)
      reads this
      ensures NewestOf(Filter(history, OfMonitor(id)), HistoryLimit, r)
      ensures forall h :: h in r ==> h in history && h.monitorId == id
    {
      Newest(Filter(history, OfMonitor(id)), HistoryLimit)
    }

    /** `getUptimePercentage`: rows of this monitor strictly newer than now minus 24 hours. */
    function UptimePercentage(id: nat, now: int): (pct: nat)
      reads this
      ensures pct <= 1000
      ensures (forall h :: h in history && h.monitorId == id ==> h.checkedAt <= now - DayMs) ==> pct == 1000
      ensures forall h :: h in Filter(history, InWindow(id, now - DayMs)) <==>
        h in history && h.monitorId == id && h.checkedAt > now - DayMs
      ensures pct == UptimeTenths(Filter(history, InWindow(id, now - DayMs)))
    {
      var window := Filter(history, InWindow(id, now - DayMs));
      assert |window| > 0 ==> window[0] in window;
      UptimeTenths(window)
    }

    /** `addUser`: every new account starts `PENDING`; a second (login_id, email) pair is refused. */
    method AddUser(name: string, loginId: string, passwordHash: string, email: string, now: int)
      returns (r: Result<nat, DbError>)
      requires Valid()
      modifies this
      ensures Valid()
      ensures monitors == old(monitors) && history == old(history)
      ensures nextMonitorId == old(nextMonitorId) && nextHistoryId == old(nextHistoryId)
      ensures nextUserId == if r.Success? then old(nextUserId) + 1 else old(nextUserId)
      ensures r.Failure? <==> exists i :: 0 <= i < |old(users)| && old(users)[i].loginId == loginId && old(users)[i].email == email
      ensures r.Failure? ==> r.error == UniqueViolation && users == old(users)
      ensures r.Success? ==>
        && r.value == old(nextUserId)
        && users == old(users) + [User(r.value, name, loginId, passwordHash, email, "user", "PENDING", now)]
    {
      if exists i | 0 <= i < |users| :: users[i].loginId == loginId && users[i].email == email {
        return Failure(UniqueViolation);
      }
      var id := nextUserId;
      users := users + [User(id, name, loginId, passwordHash, email, "user", "PENDING", now)];
      nextUserId := nextUserId + 1;
      r := Success(id);
    }

    /** Shared body of `approveUser` and `rejectUser`: no precondition on the current status. */
    method SetUserStatus(id: nat, status: string)
      requires Valid()
      modifies this`users
      ensures Valid()
      ensures |users| == |old(users)|
      ensures forall i :: 0 <= i < |users| ==>
        users[i] == if old(users)[i].id == id then old(users)[i].(status := status) else old(users)[i]
    {
      var us := users;
      users := seq(|us|, i requires 0 <= i < |us| => if us[i].id == id then us[i].(status := status) else us[i]);
    }

    /** `approveUser`. */
    method ApproveUser(id: nat)
      requires Valid()
      modifies this`users
      ensures Valid()
      ensures |users| == |old(users)|
      ensures forall i :: 0 <= i < |users| ==>
        users[i] == if old(users)[i].id == id then old(users)[i].(status := "APPROVED") else old(users)[i]
    {
      SetUserStatus(id, "APPROVED");
    }

    /** `rejectUser`. */
    method RejectUser(id: nat)
      requires Valid()
      modifies this`users
      ensures Valid()
      ensures |users| == |old(users)|
      ensures forall i :: 0 <= i < |users| ==>
        users[i] == if old(users)[i].id == id then old(users)[i].(status := "REJECTED") else old(users)[i]
    {
      SetUserStatus(id, "REJECTED");
    }

    /** `getUser`: the first row with this login id, if any (`LIMIT 1`). */
    function FindUser(loginId: string): (r: Option<User>)
      reads this
      ensures r.None? <==> forall i :: 0 <= i < |users| ==> users[i].loginId != loginId
      ensures r.Some? ==> r.value in users && r.value.loginId == loginId
    {
      FirstWithLogin(users, loginId)
    }
  }

  function FirstWithLogin(us: seq<User>, loginId: string): (r: Option<User>)
    ensures r.None? <==> forall i :: 0 <= i < |us| ==> us[i].loginId != loginId
    ensures r.Some? ==> r.value in us && r.value.loginId == loginId
    decreases |us|
  {
    if |us| == 0 then None
    else if us[0].loginId == loginId then Some(us[0])
    else
      var r := FirstWithLogin(us[1..], loginId);
      assert forall i :: 1 <= i < |us| ==> us[i] == us[1..][i - 1];
      r
  }

  /** `ORDER BY checked_at DESC LIMIT limit` over `rows`. */
  function Newest(rows: seq<HistoryRow>, limit: nat): (r: seq<HistoryRow>)
    ensures NewestOf(rows, limit, r)
  {
    var sorted := SortBy(rows, NewestFirst());
    var n := if |rows| < limit then |rows| else limit;
    NewestKept(rows, sorted, limit, n);
    sorted[..n]
  }

  /**
   * `r` is what `ORDER BY checked_at DESC LIMIT limit` may return from `rows`:
   * as many rows as the limit allows, each taken from `rows` at most as
   * often as it occurs there, all of them when they fit, newest first, and no
   * row left out is newer than the last one kept.
   */
  predicate NewestOf(rows: seq<HistoryRow>, limit: nat, r: seq<HistoryRow>) {
    && |r| == (if |rows| < limit then |rows| else limit)
    && (|rows| <= limit ==> multiset(r) == multiset(rows))
    && multiset(r) <= multiset(rows)
    && (forall h :: h in r ==> h in rows)
    && (forall i, j :: 0 <= i < j < |r| ==> r[i].checkedAt >= r[j].checkedAt)
    && (|r| > 0 ==> forall h :: h in rows && h.checkedAt > r[|r| - 1].checkedAt ==> h in r)
  }

  /** The first `n` rows of a newest-first sort are the `n` newest. */
  lemma NewestKept(rows: seq<HistoryRow>, sorted: seq<HistoryRow>, limit: nat, n: nat)
    requires SortedBy(sorted, NewestFirst())
    requires multiset(sorted) == multiset(rows)
    requires n == if |rows| < limit then |rows| else limit
    ensures n <= |sorted|
    ensures NewestOf(rows, limit, sorted[..n])
  {
    assert |sorted| == |multiset(sorted)| == |multiset(rows)| == |rows|;
    if n == |rows| {
      assert sorted[..n] == sorted;
    }
    PrefixMembers(rows, sorted, n);
    PrefixOrder(sorted, n);
    PrefixNewest(rows, sorted, n);
  }

  lemma PrefixMembers(rows: seq<HistoryRow>, sorted: seq<HistoryRow>, n: nat)
    requires multiset(sorted) == multiset(rows) && n <= |sorted|
    ensures multiset(sorted[..n]) <= multiset(rows)
    ensures forall h :: h in sorted[..n] ==> h in rows
  {
    assert sorted == sorted[..n] + sorted[n..];
    forall h | h in sorted[..n] ensures h in rows {
      assert h in multiset(sorted);
    }
  }

  lemma PrefixOrder(sorted: seq<HistoryRow>, n: nat)
    requires SortedBy(sorted, NewestFirst()) && n <= |sorted|
    ensures forall i, j :: 0 <= i < j < n ==> sorted[..n][i].checkedAt >= sorted[..n][j].checkedAt
  {
    forall i, j | 0 <= i < j < n ensures sorted[i].checkedAt >= sorted[j].checkedAt {
      assert NewestFirst()(sorted[i]) <= NewestFirst()(sorted[j]);
    }
  }

  lemma PrefixNewest(rows: seq<HistoryRow>, sorted: seq<HistoryRow>, n: nat)
    requires SortedBy(sorted, NewestFirst())
    requires multiset(sorted) == multiset(rows) && n <= |sorted|
    ensures n > 0 ==> forall h :: h in rows && h.checkedAt > sorted[n - 1].checkedAt ==> h in sorted[..n]
  {
    if n > 0 {
      forall h | h in rows && h.checkedAt > sorted[n - 1].checkedAt ensures h in sorted[..n] {
        assert h in multiset(sorted);
        var k :| 0 <= k < |sorted| && sorted[k] == h;
        assert NewestFirst()(sorted[n - 1]) > NewestFirst()(sorted[k]);
        assert sorted[..n][k] == h;
      }
    }
  }
}
