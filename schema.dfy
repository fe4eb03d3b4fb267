/**
 * The three tables of the store (`Users`, `monitors`, `monitor_history`), their
 * rows and the constraints the table definitions impose.
 */
module Schema {
  import opened Wrappers

  /** The `status` column of `monitors` and `monitor_history`. */
  datatype Status = Unknown | Up | Slow | Down

  /** The text the API serves for a status. */
  function StatusName(s: Status): (name: string)
    ensures s == Unknown <==> name == "unknown"
    ensures s == Up <==> name == "up"
    ensures s == Slow <==> name == "slow"
    ensures s == Down <==> name == "down"
  {
    match s
    case Unknown => "unknown"
    case Up => "up"
    case Slow => "slow"
    case Down => "down"
  }

  /** The certificate snapshot that the `ssl_info` column holds as JSON. */
  datatype SslInfo = SslInfo(
    daysRemaining: int,
    valid: bool,
    issuer: string,
    domain: string,
    issuedDate: string,
    expirationDate: string,
    autoRenewal: bool)

  /**
   * A `monitors` row. `kind` is the `type` column (`http`, `dns`, `icmp`, or
   * whatever text a client sent); `paused` stands for the integer 1 or 0.
   * Timestamps are milliseconds.
   */
  datatype Monitor = Monitor(
    id: nat,
    name: string,
    url: string,
    kind: string,
    status: Status,
    responseTime: int,
    lastChecked: int,
    paused: bool,
    createdBy: Option<int>,
    favicon: Option<string>,
    ssl: Option<SslInfo>)

  /** A `monitor_history` row. */
  datatype HistoryRow = HistoryRow(
    id: nat,
    monitorId: nat,
    status: Status,
    responseTime: int,
    error: Option<string>,
    checkedAt: int)

  /** A `Users` row; `password` is the stored bcrypt hash. */
  datatype User = User(
    id: nat,
    name: string,
    loginId: string,
    password: string,
    email: string,
    role: string,
    status: string,
    createdAt: int)

  /** Why a statement was refused. */
  datatype DbError = UniqueViolation | ForeignKeyViolation | EngineFault

  /** `id INTEGER PRIMARY KEY AUTOINCREMENT` and `UNIQUE(url, type)`, with rows kept in id order. */
  predicate MonitorsWellFormed(ms: seq<Monitor>, nextId: nat) {
    && 0 < nextId
    && (forall i, j :: 0 <= i < j < |ms| ==> ms[i].id < ms[j].id)
    && (forall i :: 0 <= i < |ms| ==> 0 < ms[i].id < nextId)
    && (forall i, j :: 0 <= i < j < |ms| ==> ms[i].url != ms[j].url || ms[i].kind != ms[j].kind)
  }

  /** `id INTEGER PRIMARY KEY AUTOINCREMENT` and `UNIQUE(login_id, email)`. */
  predicate UsersWellFormed(us: seq<User>, nextId: nat) {
    && 0 < nextId
    && (forall i, j :: 0 <= i < j < |us| ==> us[i].id < us[j].id)
    && (forall i :: 0 <= i < |us| ==> 0 < us[i].id < nextId)
    && (forall i, j :: 0 <= i < j < |us| ==> us[i].loginId != us[j].loginId || us[i].email != us[j].email)
  }

  predicate HasMonitor(ms: seq<Monitor>, id: nat) {
    exists i :: 0 <= i < |ms| && ms[i].id == id
  }

  /** `FOREIGN KEY(monitor_id) REFERENCES monitors(id)`, with history kept in id order. */
  predicate HistoryWellFormed(hs: seq<HistoryRow>, ms: seq<Monitor>, nextId: nat) {
    && 0 < nextId
    && (forall i, j :: 0 <= i < j < |hs| ==> hs[i].id < hs[j].id)
    && (forall i :: 0 <= i < |hs| ==> 0 < hs[i].id < nextId)
    && (forall i :: 0 <= i < |hs| ==> HasMonitor(ms, hs[i].monitorId))
  }

  /** Row predicates used as `WHERE` clauses. */
  function IsUp(): HistoryRow -> bool {
    (h: HistoryRow) => h.status == Up
  }

  function OfMonitor(id: nat): HistoryRow -> bool {
    (h: HistoryRow) => h.monitorId == id
  }

  function NotOfMonitor(id: nat): HistoryRow -> bool {
    (h: HistoryRow) => h.monitorId != id
  }

  function NotMonitor(id: nat): Monitor -> bool {
    (m: Monitor) => m.id != id
  }

  /** `monitor_id = ? AND checked_at > since`. */
  function InWindow(id: nat, since: int): HistoryRow -> bool {
    (h: HistoryRow) => h.monitorId == id && h.checkedAt > since
  }

  /** Sort key for `ORDER BY checked_at DESC`. */
  function NewestFirst(): HistoryRow -> int {
    (h: HistoryRow) => -h.checkedAt
  }
}
