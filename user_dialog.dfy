/**
 * The user-approval dialog: users grouped into the Pending, Approved and
 * Rejected tabs by their (defaulted) status, the per-status counts shown on
 * the tabs, and the actions each listed user offers.
 */
module UserDialog {
  import opened Wrappers
  import opened Text
  import opened Schema
  import opened Seqs
  import Auth

  const Pending: string := "PENDING"
  const Approved: string := "APPROVED"
  const Rejected: string := "REJECTED"

  /** The tabs, in display order; the dialog opens on the first. */
  const Tabs: seq<string> := [Pending, Approved, Rejected]
  const DefaultTab: string := Pending

  /** A row of the user list: the account and its monitor count `cnt` (absent or null when the query gave none). */
  datatype Row = Row(user: User, cnt: Option<int>)

  /** `user.status || "PENDING"`: a missing or empty status counts as pending. */
  function EffectiveStatus(r: Row): (s: string)
    ensures s != ""
    ensures r.user.status != "" ==> s == r.user.status
  {
    OrElse(r.user.status, Pending)
  }

  /** The look `getStatusConfig` gives a status. */
  datatype StatusStyle = ApprovedStyle | RejectedStyle | PendingStyle

  /** `getStatusConfig`: the exact upper-case names select their style; anything else is styled pending. */
  function StatusConfig(status: string): (c: StatusStyle)
    ensures c == ApprovedStyle <==> status == Approved
    ensures c == RejectedStyle <==> status == Rejected
  {
    if status == Approved then ApprovedStyle
    else if status == Rejected then RejectedStyle
    else PendingStyle
  }

  // ---------------------------------------------------------------------
  // Counting and filtering

  function StatusIs(tab: string): Row -> bool {
    (r: Row) => EffectiveStatus(r) == tab
  }

  /** `filteredUsers`: the users whose defaulted status is the active tab, in list order. */
  function FilteredUsers(rows: seq<Row>, tab: string): (r: seq<Row>)
    ensures forall x :: x in r <==> x in rows && EffectiveStatus(x) == tab
    ensures IsSubsequence(r, rows)
    ensures forall x :: multiset(r)[x] == if EffectiveStatus(x) == tab then multiset(rows)[x] else 0
  {
    FilterMeaning(rows, StatusIs(tab));
    Filter(rows, StatusIs(tab))
  }

  /** One key of the `userCounts` object, in insertion order. */
  datatype Entry = Entry(status: string, count: nat)

  function Keys(t: seq<Entry>): (ks: seq<string>)
    ensures |ks| == |t| && forall i :: 0 <= i < |t| ==> ks[i] == t[i].status
  {
    seq(|t|, i requires 0 <= i < |t| => t[i].status)
  }

  /** `acc[status]`, absent when the key was never set. */
  function Lookup(t: seq<Entry>, status: string): (r: Option<nat>)
    ensures r.None? <==> status !in Keys(t)
    decreases |t|
  {
    if |t| == 0 then None
    else if t[|t| - 1].status == status then Some(t[|t| - 1].count)
    else
      assert Keys(t) == Keys(t[..|t| - 1]) + [t[|t| - 1].status];
      Lookup(t[..|t| - 1], status)
  }

  /** `acc[status] = (acc[status] || 0) + 1`: a new key goes last. */
  function Bump(t: seq<Entry>, status: string): (r: seq<Entry>)
    ensures |r| == if status in Keys(t) then |t| else |t| + 1
  {
    if status in Keys(t) then
      seq(|t|, i requires 0 <= i < |t| => if t[i].status == status then Entry(status, t[i].count + 1) else t[i])
    else
      t + [Entry(status, 1)]
  }

  /** Bumping a status adds it to the keys if it was missing and keeps every other key. */
  lemma BumpKeys(t: seq<Entry>, status: string)
    ensures forall k :: k in Keys(Bump(t, status)) <==> k in Keys(t) || k == status
  {
    if status in Keys(t) {
      assert Keys(Bump(t, status)) == Keys(t);
    } else {
      assert Keys(Bump(t, status)) == Keys(t) + [status];
    }
  }

  /** The `userCounts` reduce. */
  function Tally(rows: seq<Row>): (t: seq<Entry>)
    ensures forall k :: k in Keys(t) <==> exists i :: 0 <= i < |rows| && EffectiveStatus(rows[i]) == k
    decreases |rows|
  {
    if |rows| == 0 then []
    else
      var rows', s := rows[..|rows| - 1], EffectiveStatus(rows[|rows| - 1]);
      BumpKeys(Tally(rows'), s);
      assert forall i :: 0 <= i < |rows'| ==> rows'[i] == rows[i];
      Bump(Tally(rows'), s)
  }

  function SumCounts(t: seq<Entry>): nat
    decreases |t|
  {
    if |t| == 0 then 0 else SumCounts(t[..|t| - 1]) + t[|t| - 1].count
  }

  /** `counts[tab.value] || 0`: the number on a tab. */
  function BadgeCount(rows: seq<Row>, tab: string): nat {
    Lookup(Tally(rows), tab).GetOr(0)
  }

  lemma {:induction false} SumCountsAppend(t: seq<Entry>, e: Entry)
    ensures SumCounts(t + [e]) == SumCounts(t) + e.count
  {
    assert (t + [e])[..|t|] == t;
  }

  /** Bumping an existing key adds one to the total. */
  lemma {:induction false} SumCountsBumped(t: seq<Entry>, status: string)
    requires NoDup(Keys(t)) && status in Keys(t)
    ensures SumCounts(Bump(t, status)) == SumCounts(t) + 1
    decreases |t|
  {
    var t', last := t[..|t| - 1], t[|t| - 1];
    assert Keys(t) == Keys(t') + [last.status];
    var b := Bump(t, status);
    if status in Keys(t') {
      assert last.status != status by {
        var k :| 0 <= k < |t'| && Keys(t')[k] == status;
        assert Keys(t)[k] == status;
      }
      assert NoDup(Keys(t'));
      assert b == Bump(t', status) + [last];
      SumCountsBumped(t', status);
      SumCountsAppend(Bump(t', status), last);
    } else {
      assert b == t' + [Entry(status, last.count + 1)];
      SumCountsAppend(t', Entry(status, last.count + 1));
    }
  }

  /** One more user raises exactly one count by one, keeps the keys distinct, and the total by one. */
  lemma BumpFacts(t: seq<Entry>, status: string)
    requires NoDup(Keys(t))
    ensures NoDup(Keys(Bump(t, status)))
    ensures SumCounts(Bump(t, status)) == SumCounts(t) + 1
    ensures forall k :: Lookup(Bump(t, status), k).GetOr(0) == Lookup(t, k).GetOr(0) + (if k == status then 1 else 0)
  {
    var b := Bump(t, status);
    BumpKeys(t, status);
    if status in Keys(t) {
      assert Keys(b) == Keys(t);
      SumCountsBumped(t, status);
      forall k
        ensures Lookup(b, k).GetOr(0) == Lookup(t, k).GetOr(0) + (if k == status then 1 else 0)
      {
        LookupBumped(t, status, k);
      }
    } else {
      assert Keys(b) == Keys(t) + [status];
      NoDupAppend(Keys(t), [status]);
      SumCountsAppend(t, Entry(status, 1));
      assert b[..|t|] == t;
    }
  }

  lemma {:induction false} LookupBumped(t: seq<Entry>, status: string, k: string)
    requires status in Keys(t)
    ensures Lookup(Bump(t, status), k).GetOr(0) == Lookup(t, k).GetOr(0) + (if k == status then 1 else 0)
    decreases |t|
  {
    var t', last := t[..|t| - 1], t[|t| - 1];
    assert Keys(t) == Keys(t') + [last.status];
    var b := Bump(t, status);
    if status in Keys(t') {
      assert b == Bump(t', status) + [if last.status == status then Entry(status, last.count + 1) else last];
      if last.status != k {
        LookupBumped(t', status, k);
      }
    } else {
      assert b == t' + [Entry(status, last.count + 1)];
    }
  }

  /**
   * The counts the reduce builds: each key once, each equal to the number of
   * users listed under it, together adding up to the number of users.
   */
  lemma {:induction false} TallyFacts(rows: seq<Row>)
    ensures NoDup(Keys(Tally(rows)))
    ensures SumCounts(Tally(rows)) == |rows|
    ensures forall k :: Lookup(Tally(rows), k).GetOr(0) == |FilteredUsers(rows, k)|
    decreases |rows|
  {
    if |rows| > 0 {
      var rows', last := rows[..|rows| - 1], rows[|rows| - 1];
      TallyFacts(rows');
      BumpFacts(Tally(rows'), EffectiveStatus(last));
    }
  }

  /** The number on a tab is the number of users the tab lists; it is 0 when nobody has that status. */
  lemma BadgeCountIsListed(rows: seq<Row>, tab: string)
    ensures BadgeCount(rows, tab) == |FilteredUsers(rows, tab)|
    ensures (forall i :: 0 <= i < |rows| ==> EffectiveStatus(rows[i]) != tab) ==> BadgeCount(rows, tab) == 0
  {
    TallyFacts(rows);
    FilterAllOrNone(rows, StatusIs(tab));
  }

  /** A status is listed under some tab exactly when it is one of the three names. */
  predicate InSomeTab(r: Row) {
    EffectiveStatus(r) in Tabs
  }

  /**
   * Every user is counted once, but the three tabs together list only those
   * whose status is one of the three names: a user with status `Approved` is
   * styled pending, counted, and listed under no tab.
   */
  lemma {:induction false} TabsPartition(rows: seq<Row>)
    ensures |FilteredUsers(rows, Pending)| + |FilteredUsers(rows, Approved)| + |FilteredUsers(rows, Rejected)|
      + |Filter(rows, Not(InSomeTab))| == |rows|
    decreases |rows|
  {
    if |rows| > 0 {
      var last := rows[|rows| - 1];
      var s := EffectiveStatus(last);
      TabsPartition(rows[..|rows| - 1]);
      assert InSomeTab(last) <==> s == Pending || s == Approved || s == Rejected;
      assert Not(InSomeTab)(last) <==> !InSomeTab(last);
    }
  }

  /** A user with a status outside the three names is styled pending but listed under no tab. */
  lemma OffTabStatus(rows: seq<Row>, r: Row)
    requires r in rows && !InSomeTab(r)
    ensures StatusConfig(EffectiveStatus(r)) == PendingStyle
    ensures forall tab :: tab in Tabs ==> r !in FilteredUsers(rows, tab)
    ensures r in Filter(rows, Not(InSomeTab))
  {
  }

  /**
   * The administrator seeded at start-up carries the status `Approved`, not
   * `APPROVED`: login lets it in (only `PENDING` and `REJECTED` are refused),
   * while the dialog styles it pending and lists it under no tab.
   */
  lemma SeededAdminOffTab(rows: seq<Row>, hash: string, now: int, cnt: Option<int>,
                          password: string, matches: (string, string) -> bool)
    requires Row(User(1, "Admin", "admin", hash, "admin@uptimekit.local", "admin", "Approved", now), cnt) in rows
    requires password != ""
    ensures var admin := User(1, "Admin", "admin", hash, "admin@uptimekit.local", "admin", "Approved", now);
      && (Auth.Login("admin", password, Success(Some(admin)), matches).LoggedIn? <==> matches(password, hash))
      && StatusConfig(EffectiveStatus(Row(admin, cnt))) == PendingStyle
      && (forall tab :: tab in Tabs ==> Row(admin, cnt) !in FilteredUsers(rows, tab))
      && !ActionsFor(Row(admin, cnt)).approveReject && ActionsFor(Row(admin, cnt)).monitorCount.None?
  {
    var admin := User(1, "Admin", "admin", hash, "admin@uptimekit.local", "admin", "Approved", now);
    assert !InSomeTab(Row(admin, cnt)) by {
      assert EffectiveStatus(Row(admin, cnt)) == "Approved";
      assert "Approved"[1] != Pending[1] && "Approved"[1] != Approved[1] && "Approved"[1] != Rejected[1];
    }
    OffTabStatus(rows, Row(admin, cnt));
  }

  // ---------------------------------------------------------------------
  // Row actions

  /** What a listed user's row offers: the Approve/Reject buttons, or the monitor count. */
  datatype RowActions = RowActions(approveReject: bool, monitorCount: Option<int>)

  function ActionsFor(r: Row): (a: RowActions)
    ensures a.approveReject <==> EffectiveStatus(r) == Pending
    ensures a.monitorCount.Some? <==> EffectiveStatus(r) == Approved
    ensures a.monitorCount.Some? ==> a.monitorCount.value == r.cnt.GetOr(0)
  {
    var s := EffectiveStatus(r);
    RowActions(s == Pending, if s == Approved then Some(r.cnt.GetOr(0)) else None)
  }

  /** No row offers both the buttons and the count; in the Rejected tab rows offer neither. */
  lemma ActionsExclusive(rows: seq<Row>, r: Row)
    ensures !(ActionsFor(r).approveReject && ActionsFor(r).monitorCount.Some?)
    ensures r in FilteredUsers(rows, Rejected) ==> ActionsFor(r) == RowActions(false, None)
    ensures r in FilteredUsers(rows, DefaultTab) ==> ActionsFor(r).approveReject
  {
  }

  /** A freshly signed-up account (status `PENDING`) is listed in the default tab with the Approve and Reject buttons. */
  lemma NewAccountPending(rows: seq<Row>, u: User, cnt: Option<int>)
    requires u.status == "PENDING" && Row(u, cnt) in rows
    ensures Row(u, cnt) in FilteredUsers(rows, DefaultTab)
    ensures ActionsFor(Row(u, cnt)).approveReject
  {
  }
}
