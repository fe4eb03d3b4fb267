# UptimeKit core, modelled in Dafny

UptimeKit is a self-hosted uptime monitor. An Express backend keeps monitors,
their check history and user accounts in SQLite. A cron job checks every
active monitor once a minute over DNS, ICMP ping or HTTP, and a second job
records TLS certificate snapshots every twelve hours. A React dashboard shows
the monitors as cards with aggregates, a drag-and-drop card order, and an
approval dialog for user accounts.

This project models the deterministic core of that system:

- the probe outcome rules and the two cron jobs (`probes.dfy`, `scheduler.dfy`);
- favicon resolution (`favicon.dfy`), the login decision ladder (`auth.dfy`)
  and the downtime report (`downtime.dfy`);
- the database layer, as a class holding the three tables (`schema.dfy`, `store.dfy`);
- the dashboard aggregates and the saved card order (`dashboard.dfy`, `saved_order.dfy`);
- the monitor card's display classifiers (`monitor_card.dfy`);
- the user-approval dialog (`user_dialog.dfy`);
- the form validation rules of the add-monitor dialog, the sign-up dialog and
  the login page (`forms.dfy`).

`wrappers.dfy`, `text.dfy`, `seqs.dfy`, `sorting.dfy` and `numeric.dfy` hold
the JavaScript primitives the core relies on: `split(/\s+/)`, `join`,
`toLowerCase`, `filter`, `Array.from(new Set(...))`, numeric sort and
`Math.round`.

Conventions:

- Network answers (DNS, ping, HTTP, the certificate checker, the favicon page
  fetch), clocks and the bcrypt comparison are parameters.
- Timestamps are integer milliseconds.
- Percentages shown with one decimal are integer tenths. `Math.round` and
  `toFixed(1)` are round-half-up over exact fractions.
- The empty string stands for a JavaScript `null`/`undefined` string wherever
  the source only tests its truthiness (`x || fallback`). `Option` stands for
  an absent JSON field.
- Operations that update the tables in place are methods of
  `Store.Database`, with `modifies` clauses. The two cron jobs and the
  downtime loop are methods with loops. Each is proved against a function
  that specifies it.
- The saved card order is a field of `SavedOrder.OrderStore` that its methods
  overwrite, as the browser storage entry is.

One inconsistency in the code is kept as written. database.js seeds the
default administrator with status `Approved` (backend/database.js:155), while
every other part of the system writes and tests `APPROVED`.
`UserDialog.SeededAdminOffTab` shows the consequence: login lets
the administrator in, because only `PENDING` and `REJECTED` are refused, but
the approval dialog styles that account as pending and lists it under none of
its three tabs.

## Model

| member | source | states |
|---|---|---|
| Probes.Classify | backend/server.js:307-314 | A latency below 1000 ms is `up`, from 1000 below 5000 `slow`, 5000 or more `down`: each status iff its band |
| Probes.ClassifyMonotone | backend/server.js:406-412 | A slower successful probe never classifies healthier |
| Probes.ProbeHost | backend/server.js:299-302 | A url that does not start case-sensitively with `http://`/`https://` is used verbatim; one that does becomes its lower-cased host, or fails with "Invalid URL" when the host is empty |
| Probes.HostRoundTrip | backend/server.js:345-348 | Any non-empty host placed between a web scheme and a path, port, query or fragment comes back out of the host extraction lower-cased (so `http://Example.COM/x` gives `example.com`), and a lower-case host comes back unchanged |
| Probes.CheckDns | backend/server.js:295-339 | No error iff the host is usable and resolves; then the status is the latency band; otherwise `down` with the resolver's message or "DNS resolution failed"; the wall-clock time is always recorded |
| Probes.CheckPing | backend/server.js:342-395 | A live answer is classified on the ping's own time when it has one, else on wall-clock time; a dead host is `down` without error; a thrown error is `down` with its message or "Ping failed"; the recorded latency is always wall-clock |
| Probes.CheckHttp | backend/server.js:398-436 | A response is classified by latency only when its status is 200, else `down`; a thrown error is `down` with the status text, the message or "Unknown error" |
| Probes.CheckSsl | backend/server.js:438-472 | A snapshot is stored iff the host is usable and the checker answered; it carries the days, validity, the issuer's O (else CN, else the text), the host, the two dates and `autoRenewal` false |
| Scheduler.ProbeFor | backend/server.js:497-503 | Type `dns` selects DNS, `icmp` ping, every other type HTTP |
| Scheduler.Probe | backend/server.js:495-504 | The check run for a monitor is the one its type selects, fed that probe's answer, and records the elapsed time |
| Scheduler.ProbeVerdicts | backend/server.js:307-314 | An error always means `down`; a healthy verdict has no error; `up` needs a latency under 1000 ms (the ping's own time for ping); an HTTP verdict other than `down` needs status 200 |
| Scheduler.TickPlanChecksActive | backend/server.js:495-505 | The minute job's calls are exactly one check per monitor that is not paused, in list order |
| Scheduler.TickPlanOncePerMonitor | backend/server.js:496 | With unique ids a paused monitor is never checked and an active one is checked exactly once |
| Scheduler.TickPlanAround | backend/server.js:495-505 | The calls split at any monitor into the calls before it, its own step and the calls after it |
| Scheduler.TickPlanIds | backend/server.js:495-505 | Every call is for a monitor of the snapshot that is not paused |
| Scheduler.TickPlanAppend | backend/server.js:495-505 | The plan of a concatenated monitor list is the concatenation of the plans |
| Scheduler.HistoryRows | backend/database.js:256-259 | The rows a plan appends: one per call, numbered consecutively, with that call's monitor, status, latency and error |
| Scheduler.ApplyChecks | backend/database.js:248-251 | Applying a plan keeps every row's id and pause flag and the table's length |
| Scheduler.ApplyChecksUntouched | backend/database.js:248-251 | A monitor named by no call keeps its row |
| Scheduler.ApplyChecksLast | backend/database.js:248-251 | The last call for a monitor decides its status, latency and check time |
| Scheduler.ApplyChecksAppend | backend/database.js:248-251 | Applying two plans in turn is applying their concatenation |
| Scheduler.CheckMonitor | backend/server.js:496-504 | One monitor's step against the store: a paused monitor changes nothing; an active one gets its row updated and one history row appended, unless the store's `UPDATE` fails, which also changes nothing |
| Scheduler.RunCheckTick | backend/server.js:488-507 | When reading the monitor list fails, the minute job changes nothing; otherwise it leaves the store exactly as the planned calls whose update the store accepted, applied in order, would: updated monitors and their history rows appended |
| Scheduler.CheckSnapshot | backend/server.js:495-505 | The loop over the monitor list read: its effect is the recorded calls of the plan, applied in order |
| Scheduler.RecordedWithoutFaults | backend/server.js:495-505 | When the store refuses no update, every planned call is recorded |
| Scheduler.TickStep | backend/server.js:495-505 | The state after a plan and then one more step is the state after the concatenated plan |
| Scheduler.SslPlanTargets | backend/server.js:479-483 | Every certificate snapshot the twelve-hour job stores belongs to an active monitor whose lower-cased url starts with `https://`, and is the mapped checker report |
| Scheduler.ApplySsl | backend/database.js:379-384 | Storing snapshots keeps the table's length and every id |
| Scheduler.ApplySslOnlySnapshots | backend/database.js:379-384 | The certificate job changes nothing but the `ssl` snapshots |
| Scheduler.RunSslTick | backend/server.js:475-485 | When reading the monitor list fails, the twelve-hour job changes nothing; otherwise it leaves the monitor table as the planned snapshot writes that the store accepted, applied in order, would: a monitor whose write fails keeps its old snapshot |
| Scheduler.SslNext | backend/server.js:461-466 | One monitor's step: its snapshot is written iff it is an active `https` monitor, the checker answered and the store accepted the write |
| Scheduler.SslWrittenStep | backend/server.js:479-483 | One more monitor adds its snapshot write to the accepted ones exactly when it is planned and the store takes it |
| Scheduler.SslWrittenWithoutFaults | backend/server.js:479-483 | Without store faults every planned snapshot write is made |
| Scheduler.SslStep | backend/database.js:379-384 | One more snapshot write is one more in-place update of that monitor's row |
| Favicon.Origin | backend/server.js:65-66 | `protocol//host` of a web url: defined iff the url has a web scheme in any letter case and a non-empty host, and then starts with `http://` or `https://` |
| Favicon.OriginIgnoresCase | backend/server.js:73-74 | The origin is the same for a url and its lower-cased form, as `new URL` lower-cases scheme and host |
| Favicon.OriginOf | backend/server.js:73-74 | A web scheme in any case, a non-empty host and a path, query or fragment give the lower-cased scheme followed by the lower-cased host (`HTTP://Example.com/x` has origin `http://example.com`) |
| Favicon.ResolveFavicon | backend/server.js:48-85 | No page or a non-text body gives nothing; without an icon link the origin's `/favicon.ico` is returned iff the HEAD request succeeds; a link starting with `http` is returned unchanged; every result starts with `http` |
| Favicon.ProtocolRelativeFirst | backend/server.js:62-63 | A `//` link becomes `https:` plus the link, whatever the page's own url (tested before `/`) |
| Favicon.RelativeIconOnOrigin | backend/server.js:64-70 | A root-relative or relative link is joined to the page's origin with exactly one `/`, and nothing is returned when the origin cannot be parsed |
| Favicon.ResolveIdempotent | backend/server.js:71 | A resolved favicon, found again as a link, resolves to itself |
| Auth.StatusCode | backend/server.js:591-616 | 200 iff logged in; 403 iff the account is pending or rejected |
| Auth.Login | backend/server.js:588-617 | Logged in iff both fields are present, the lookup found the user, the status is neither `PENDING` nor `REJECTED` and the password matches; each refusal (400, 500, 404, pending 403, rejected 403, wrong password 401) iff its own rung of the ladder is the first that fails |
| Auth.StatusBeforePassword | backend/server.js:604-616 | A pending or rejected account gets the same 403 whatever password is sent and whatever the comparison says |
| Auth.LoginAgainstStore | backend/database.js:216-226 | Against the store: not found iff no row has the login id; a logged-in user is a stored row with that id; an `APPROVED` account logs in iff the password matches |
| Downtime.FindDowntimes | backend/server.js:521-544 | The replay loop computes the outage list that the replay function specifies |
| Downtime.DowntimeReport | backend/server.js:509-552 | A failed query answers 500; an empty history says so; otherwise the outages newest first, capped at 30, with `total` the count of all outages |
| Downtime.Scan | backend/server.js:525-544 | Every outage the replay reports has the duration `Math.floor((end - start) / 1000)` in whole seconds |
| Downtime.ScanBound | backend/server.js:525-544 | Each outage needs a `down` row and a recovery row, so there are at most half as many outages as rows |
| Downtime.ScanNeedsBoth | backend/server.js:527-534 | A history without recovery rows, or without `down` rows, reports no outage |
| Downtime.ScanOrdered | backend/server.js:535-541 | Over a chronological history every outage has a non-negative length and ends before the next one starts |
| Downtime.ReversedNewestFirst | backend/server.js:521 | The newest-first history read backwards is chronological |
| Downtime.RecentDowntimes | backend/server.js:546-550 | Over the at most 30 stored rows there are at most 15 outages, so the cap of 30 never cuts the list, and the outages are ordered with non-negative lengths |
| Downtime.StoreDowntimes | backend/database.js:318-327 | The history the store hands out meets those conditions |
| Store.UptimeTenths | backend/database.js:280-285 | The uptime in tenths of a percent: 1000 with no rows, else the up share rounded to one decimal, always within 0..1000 |
| Store.UptimeExtremes | backend/database.js:280-285 | All-up rows read 100.0 and rows with no `up` read 0.0 |
| Store.DeleteKeepsMonitors | backend/database.js:229-233 | Deleting a monitor keeps the monitor table's key and uniqueness constraints, and the id is gone |
| Store.DeleteKeepsHistory | backend/database.js:130 | Cascading the delete to the history keeps every foreign key valid |
| Store.UpdateWhere | backend/database.js:249 | `UPDATE ... WHERE id = ?` edits the row with that id and leaves every other row as it was |
| Store.StatusUpdateKeeps | backend/database.js:248-261 | A status update with its history row keeps both tables' constraints |
| Store.Database.constructor | backend/database.js:143-163 | Empty monitor and history tables, and the default administrator with status `Approved` |
| Store.Database.AddMonitor | backend/database.js:194-202 | A new monitor is `unknown`, 0 ms and not paused, with the next id, and only the monitor id counter moves; a second (url, type) pair is refused with a unique violation and nothing changes |
| Store.Database.DeleteMonitor | backend/database.js:229-233 | The monitor and all its history rows are removed; users are untouched |
| Store.Database.UpdateMonitorStatus | backend/database.js:236-263 | On success the row gets the status, latency and check time, and exactly one history row with the same status, latency and error is appended; if the update fails or the id is absent, nothing changes |
| Store.Database.UpdateMonitor | backend/database.js:359-365 | Name, url and type of the row are replaced unless another row already has that (url, type) pair |
| Store.Database.UpdateMonitorFavicon | backend/database.js:367-371 | Only that monitor's favicon changes |
| Store.Database.UpdateMonitorSsl | backend/database.js:379-384 | Fails iff the store faults, and then nothing changes; otherwise only that monitor's certificate snapshot changes, replaced as a whole |
| Store.Database.ToggleMonitorPause | backend/database.js:373-377 | The pause flag becomes the truthiness of the request value; no other field changes |
| Store.Database.MonitorsForUser | backend/database.js:180-191 | An admin sees every monitor; any other role sees exactly the monitors it created; both in id order |
| Store.Database.MonitorHistory | backend/database.js:318-327 | At most 30 of that monitor's rows, each at most as often as it is stored, newest first, and no stored row of it newer than the oldest returned is left out |
| Store.Database.UptimePercentage | backend/database.js:266-287 | The value is the rounded share of `up` rows among this monitor's rows strictly newer than now minus 24 hours (a row exactly 24 hours old is out); with no such row it is 100.0; always within 0..100.0 |
| Store.Database.AddUser | backend/database.js:205-213 | A new account starts `PENDING` with the next id, and only the user id counter moves; a second (login_id, email) pair is refused and nothing changes |
| Store.Database.ApproveUser | backend/database.js:386-391 | The user with that id becomes `APPROVED`, whatever its status was; every other row is kept |
| Store.Database.RejectUser | backend/database.js:393-398 | The user with that id becomes `REJECTED`, whatever its status was; every other row is kept |
| Store.Database.SetUserStatus | backend/database.js:386-398 | The shared update of approve and reject: the row with that id gets the new status, with no precondition on the old one, and every other row is kept |
| Store.Database.FindUser | backend/database.js:216-226 | The first user with that login id, absent iff there is none |
| Store.Newest | backend/database.js:323-324 | `ORDER BY checked_at DESC LIMIT n`: min(n, |rows|) rows, a sub-multiset of the input (all of it when it fits), newest first, with no left-out row newer than the last one kept |
| Store.NewestKept | backend/database.js:323-324 | The first n rows of a newest-first sort are the n newest rows, each taken at most as often as it occurs in the input |
| Sorting.Sort | frontend/src/components/Dashboard.jsx:118 | An ascending permutation of the values |
| Sorting.SortedUnique | frontend/src/components/Dashboard.jsx:118 | Two ascending arrangements of the same values are equal |
| Dashboard.Count | frontend/src/components/Dashboard.jsx:102-104 | A status count never exceeds the number of monitors, and is 0 iff no monitor has that status |
| Dashboard.CountsSum | frontend/src/components/Dashboard.jsx:102-104 | The four status counts add up to the number of monitors |
| Dashboard.Rank | frontend/src/components/Dashboard.jsx:119-121 | The rank `p / 100 * (n - 1)` split into its whole part and hundredths beyond it; a fractional rank has a neighbour above it within the array |
| Dashboard.Percentile | frontend/src/components/Dashboard.jsx:116-125 | `computePercentile` returns 0 for an empty array; otherwise, over the ascending values, the value at a whole rank, and at a fractional rank the two neighbours weighted by the hundredths, rounded half up |
| Dashboard.AtRank | frontend/src/components/Dashboard.jsx:119-124 | The value at a whole rank; at a fractional rank the weighted mean `lower * (1 - w) + upper * w` rounded half up; for a sorted array it lies between the first and the last value |
| Dashboard.Percentile95Example | frontend/src/components/Dashboard.jsx:116-130 | The 95th percentile of 10, 20, 30, 40 is 39 (rank 2.85, 30 and 40 weighted 15:85, 38.5 rounded up) |
| Dashboard.PercentileBetween | frontend/src/components/Dashboard.jsx:116-125 | A percentile lies between the least and the greatest value; of a single value it is that value |
| Dashboard.PercentileExtremes | frontend/src/components/Dashboard.jsx:119-122 | The 0th percentile is the least value and the 100th the greatest |
| Dashboard.PercentileOrderFree | frontend/src/components/Dashboard.jsx:118 | The percentile depends only on the values, not on their order |
| Dashboard.InterpolationBetween | frontend/src/components/Dashboard.jsx:123-124 | The rounded interpolation between two ranks lies between their values |
| Dashboard.ResponseTimes | frontend/src/components/Dashboard.jsx:127-129 | The percentile's input is the list's latencies with the non-positive ones deleted: a subsequence in list order holding each positive latency as often as it occurs and nothing else |
| Dashboard.P95NonNegative | frontend/src/components/Dashboard.jsx:130 | The 95th percentile is never negative |
| Dashboard.HealthScore | frontend/src/components/Dashboard.jsx:131-147 | `null` iff there are no monitors, else a score within 0..100 |
| Dashboard.HealthScoreValue | frontend/src/components/Dashboard.jsx:132-147 | The score is `100 * (0.5 * up/total + 0.3 * (1 - issues/total) + 0.2 * latencyNormalized)` rounded to the nearest integer, halves up |
| Dashboard.LatencyShare | frontend/src/components/Dashboard.jsx:136-140 | `latencyNormalized` times 2000: `2000 - p95` clamped to 0..2000 |
| Dashboard.HealthAllUp | frontend/src/components/Dashboard.jsx:140-147 | All monitors up with no latency score 100 |
| Dashboard.HealthAllDown | frontend/src/components/Dashboard.jsx:140-147 | All monitors down at or past 2000 ms score 0 |
| Dashboard.ComputeStats | frontend/src/components/Dashboard.jsx:99-114 | The total is the list's length; `up`, `down` and `slow` are the status counts, so their sum never exceeds it; issues are `down + slow`; p95 is the 95th percentile of the positive latencies and non-negative; the health score is computed from that p95; the mean is the rounded mean latency, 0 without monitors |
| Dashboard.MeanLatency | frontend/src/components/Dashboard.jsx:105-111 | The mean latency rounded to the nearest integer (halves up), 0 without monitors |
| Dashboard.AverageBetween | frontend/src/components/Dashboard.jsx:105-111 | The rounded mean latency lies within the latencies' bounds |
| Dashboard.UptimeShown | frontend/src/components/Dashboard.jsx:149-150 | The overall uptime in tenths: the share of monitors that are up, as a percentage rounded half up to a tenth; 0 without monitors, 100.0 when all are up, always within 0..100.0 |
| Dashboard.FilterByTab | frontend/src/components/Dashboard.jsx:152-163 | The `up`, `down` and `slow` tabs show exactly the monitors with that status; any other tab shows the whole list; the result is a subsequence of the list in its order, holding every occurrence of a shown monitor |
| Seqs.FilterMeaning | frontend/src/components/Dashboard.jsx:152-163 | `filter` keeps a subsequence of its input holding every occurrence of each passing value and nothing else |
| Seqs.Dedup | frontend/src/components/Dashboard.jsx:172-174 | `Array.from(new Set(xs))`: duplicate-free, with exactly the input's elements |
| Seqs.DedupOfNoDup | frontend/src/components/Dashboard.jsx:228 | De-duplicating a duplicate-free list changes nothing |
| SavedOrder.SavedIds | frontend/src/components/Dashboard.jsx:167-179 | The stored ids, each once; `[]` for a missing, unparsable or non-array entry |
| SavedOrder.SavedIdsRoundTrip | frontend/src/components/Dashboard.jsx:167-179 | A duplicate-free order written and read back is the same order |
| SavedOrder.FindById | frontend/src/components/Dashboard.jsx:187 | The first monitor with that id, absent iff none has it |
| SavedOrder.ApplySavedOrder | frontend/src/components/Dashboard.jsx:181-194 | The two loops build the list unchanged for an empty saved order, else the found monitors in saved order followed by the unsaved ones in list order |
| SavedOrder.FoundFacts | frontend/src/components/Dashboard.jsx:186-189 | With distinct ids the found monitors are distinct and include every monitor whose id is saved |
| SavedOrder.ArrangePermutation | frontend/src/components/Dashboard.jsx:181-194 | With distinct ids, applying any saved order only rearranges the monitors |
| SavedOrder.SwapOrderFacts | frontend/src/components/Dashboard.jsx:199-213 | After a swap the order starts with the swapped ids, holds every id once, and loses no id |
| SavedOrder.OrderStore.constructor | frontend/src/components/Dashboard.jsx:169 | The storage entry as the page finds it |
| SavedOrder.ReconcileOrder | frontend/src/components/Dashboard.jsx:220-229 | The reconciled order is duplicate-free and holds exactly the current ids |
| SavedOrder.ReconcileKeepsSavedOrder | frontend/src/components/Dashboard.jsx:224-228 | With duplicate-free inputs it is the saved ids still present, in saved order, then the new ids |
| SavedOrder.OrderStore.UpdateForSwap | frontend/src/components/Dashboard.jsx:199-218 | The storage entry becomes the swap order over the previously saved ids |
| SavedOrder.OrderStore.Reconcile | frontend/src/components/Dashboard.jsx:220-230 | Skipped while loading or without monitors; otherwise the entry becomes the reconciled order |
| SavedOrder.ReconciledOrderCoversAll | frontend/src/components/Dashboard.jsx:220-230 | After a reconcile the saved order names exactly the current monitors, so applying it leaves no monitor unsaved |
| MonitorCard.StatusInfoOf | frontend/src/components/MonitorCard.jsx:19-50 | `up` is green, `down` red, `slow` amber; anything else is "Collecting data..." in blue |
| MonitorCard.BorderTone | frontend/src/components/MonitorCard.jsx:159-160 | The card border is green iff `up`, amber iff `slow`, otherwise red |
| MonitorCard.BorderAgreesWithPanel | frontend/src/components/MonitorCard.jsx:159-160 | For a checked status the border and the status panel share a colour; an unchecked one has a red border beside a blue panel |
| MonitorCard.Badge | frontend/src/components/MonitorCard.jsx:280 | `unknown` shows the waiting badge; any other status its upper-cased name, each ASCII lower-case letter replaced by its capital (code point minus 32) |
| MonitorCard.BadgeOfStoredStatus | frontend/src/components/MonitorCard.jsx:280 | For a stored status other than `unknown`, lower-casing the badge gives the status back |
| MonitorCard.ResponseTimeTone | frontend/src/components/MonitorCard.jsx:144-148 | Green iff below 500 ms, amber iff 500 to 1999, red iff 2000 or more |
| MonitorCard.UptimeTone | frontend/src/components/MonitorCard.jsx:290 | Green iff at least 99.0, amber iff 95.0 up to 99.0, red iff below 95.0 |
| MonitorCard.TonesMonotone | frontend/src/components/MonitorCard.jsx:144-148 | More latency, or less uptime, never gives a healthier colour |
| MonitorCard.TruncateText | frontend/src/components/MonitorCard.jsx:150-156 | A text of at most eight words is returned as it is; a longer one ends in `...` |
| MonitorCard.TruncateTextWords | frontend/src/components/MonitorCard.jsx:150-156 | A text is left unchanged iff it splits into at most 8 fields; otherwise the result splits into its first 8 fields with `...` appended to the eighth |
| MonitorCard.Summary | frontend/src/components/MonitorCard.jsx:323-345 | Without chart data the mean, minimum and maximum all fall back to the monitor's latency; otherwise minimum and maximum are chart values and the mean lies between them |
| MonitorCard.SummaryOfFlatChart | frontend/src/components/MonitorCard.jsx:323-345 | A chart of one repeated value summarises to that value |
| MonitorCard.SslStatusInfo | frontend/src/components/MonitorCard.jsx:53-82 | Expired iff invalid or at most 0 days; expiring soon iff valid with 1 to 29 days; valid iff valid with 30 or more |
| MonitorCard.DaysRemainingTone | frontend/src/components/MonitorCard.jsx:84-92 | The days figure is red iff invalid or at most 0 days, amber iff valid with 1 to 29 days, green iff valid with 30 or more |
| MonitorCard.SslBandsAgree | frontend/src/components/MonitorCard.jsx:84-92 | The days colour uses the same bands as the status; more days never gives a worse band |
| MonitorCard.DaysShown | frontend/src/components/MonitorCard.jsx:466 | The day count is shown iff positive, otherwise "Expired" |
| MonitorCard.CertificatePanel | frontend/src/components/MonitorCard.jsx:420-423 | A missing day count reads 0, only `valid === false` is invalid, and the panel's status and day text follow from those |
| MonitorCard.DaysTextAgreesWithBand | frontend/src/components/MonitorCard.jsx:466 | "Expired" is shown iff the day count alone would put the certificate in the expired band |
| MonitorCard.SslPanelAsWritten | frontend/src/components/MonitorCard.jsx:409-489 | The certificate panel as written: any type other than `https` shows the not-for-HTTP note; type `https` without a certificate shows it as unavailable; type `https` with one shows its band, and the Renew button iff the certificate object's `status` field is `expiring-soon` |
| MonitorCard.StoredCertificateHidden | frontend/src/components/MonitorCard.jsx:409-417 | For every monitor the form can create, a stored certificate is never shown, and the Renew button never appears for a stored snapshot |
| MonitorCard.SslPanelFor | frontend/src/components/MonitorCard.jsx:417-489 | Corrected panel: shown iff the url is `https` and a snapshot exists; Renew iff the certificate is expiring soon |
| MonitorCard.StoredCertificateShown | frontend/src/components/MonitorCard.jsx:417-489 | Every monitor the certificate job stores a snapshot for gets the snapshot shown, with Renew exactly in the expiring-soon band |
| UserDialog.EffectiveStatus | frontend/src/components/MonitorUserDialog.jsx:110 | A missing or empty status counts as `PENDING`; any other status is kept |
| UserDialog.StatusConfig | frontend/src/components/MonitorUserDialog.jsx:24-51 | Approved style iff exactly `APPROVED`, rejected style iff exactly `REJECTED`, pending style otherwise |
| UserDialog.FilteredUsers | frontend/src/components/MonitorUserDialog.jsx:116-118 | Exactly the users whose defaulted status is the active tab, as a subsequence of the list in its original order with every occurrence kept |
| UserDialog.BumpKeys | frontend/src/components/MonitorUserDialog.jsx:111 | Bumping a status adds it to the keys if it was missing and keeps every other key |
| UserDialog.Tally | frontend/src/components/MonitorUserDialog.jsx:109-113 | The count object's keys are exactly the defaulted statuses of the listed users |
| UserDialog.TallyFacts | frontend/src/components/MonitorUserDialog.jsx:109-113 | The count object has each status once, the counts add up to the number of users, and each count is the number of users listed under that status |
| UserDialog.BumpFacts | frontend/src/components/MonitorUserDialog.jsx:111 | One more user raises exactly its status's count by one |
| UserDialog.BadgeCountIsListed | frontend/src/components/MonitorUserDialog.jsx:59 | The number on a tab is the number of users the tab lists, and 0 when nobody has that status |
| UserDialog.TabsPartition | frontend/src/components/MonitorUserDialog.jsx:102-118 | The three tabs and the users of any other status together account for every user exactly once |
| UserDialog.OffTabStatus | frontend/src/components/MonitorUserDialog.jsx:24-51 | A status outside the three names is styled pending but listed in no tab |
| UserDialog.SeededAdminOffTab | backend/database.js:155 | The seeded administrator can log in, yet the dialog styles it pending, lists it in no tab and gives it neither buttons nor a count |
| UserDialog.ActionsFor | frontend/src/components/MonitorUserDialog.jsx:207-263 | Approve/Reject iff the status is `PENDING`; the monitor count, 0 when absent, iff `APPROVED` |
| UserDialog.ActionsExclusive | frontend/src/components/MonitorUserDialog.jsx:207-263 | No row offers both; rejected rows offer neither; every row of the default tab offers the buttons |
| UserDialog.NewAccountPending | backend/database.js:207 | A newly signed-up account appears in the default tab with the Approve and Reject buttons |
| Forms.Validate | frontend/src/components/AddMonitorDialog.jsx:142-148 | An empty value fails only a required rule, with its message; a non-empty one fails the length rule first, then the pattern, each with its message |
| Forms.UrlRules | frontend/src/components/AddMonitorDialog.jsx:186-200 | The url is required for every type; only `http` adds the url pattern |
| Forms.UrlRulesMeaning | frontend/src/components/AddMonitorDialog.jsx:193-200 | An `http` url is accepted iff it matches the pattern, which implies a web scheme; other types accept any non-empty value |
| Forms.HttpUrlExamples | frontend/src/components/AddMonitorDialog.jsx:196 | `https://example.com` matches the pattern |
| Forms.HttpUrlCounterExamples | frontend/src/components/AddMonitorDialog.jsx:196 | A host without a dot (`https://localhost`) and a url without a scheme (`example.com`) do not match |
| Forms.AddMonitorDialog.constructor | frontend/src/components/AddMonitorDialog.jsx:21 | The dialog starts closed and empty, with type `http` |
| Forms.AddMonitorDialog.SelectType | frontend/src/components/AddMonitorDialog.jsx:21 | The chosen type becomes the selected one |
| Forms.AddMonitorDialog.Edit | frontend/src/components/AddMonitorDialog.jsx:142-200 | Typing sets the two registered fields and nothing else |
| Forms.AddMonitorDialog.Submit | frontend/src/components/AddMonitorDialog.jsx:37-42 | Sent iff name and url pass their rules, with the selected type; a successful submit closes and resets the dialog to `http` |
| Forms.AddMonitorDialog.Cancel | frontend/src/components/AddMonitorDialog.jsx:221-224 | Cancel closes the dialog and resets it to `http` |
| Forms.PasswordAccepted | frontend/src/components/SignupDialog.jsx:151-161 | A password is accepted iff it has at least 8 characters, all in `[A-Za-z0-9@$!%*#?&]`, with a letter and a digit; the same holds without the separate length rule |
| Forms.ShortFieldsAccepted | frontend/src/components/SignupDialog.jsx:97-129 | The sign-up name and the login id are accepted iff they have at least two characters; an empty one gets its own prompt and a one-character one the length message |
| Forms.LoginAcceptsSignupPassword | frontend/src/pages/LoginPage.jsx:111-121 | The login form judges every password exactly as the sign-up form does |
| Forms.EmailAccepted | frontend/src/components/SignupDialog.jsx:182-188 | An email is accepted iff it has exactly one `@`, no white space, a non-empty local part and a domain with a `.` that has text on both sides |
| Forms.EmailMatchesRule | frontend/src/components/SignupDialog.jsx:185 | Every match of the email pattern meets that rule |
| Forms.EmailRuleMatches | frontend/src/components/SignupDialog.jsx:185 | Every email meeting that rule matches the pattern |
| Forms.ServerError | backend/server.js:591-616 | Every refusal of the login endpoint carries a non-empty error message; success carries none |
| Forms.LoginErrorMessage | frontend/src/pages/LoginPage.jsx:37-40 | The server's error when present, otherwise "Login failed" |
| Forms.RefusalShowsReason | frontend/src/pages/LoginPage.jsx:37-40 | Every refusal shows the server's own reason, never the fallback |
| Forms.Redirect | frontend/src/pages/LoginPage.jsx:47-51 | The page navigates to `/dashboard` iff user information is present |
| Text.SplitWords | frontend/src/components/MonitorCard.jsx:151 | `split(/\s+/)`: at least one field, no field holds white space, and only the first and last can be empty |
| Text.SplitWordsMeaning | frontend/src/components/MonitorCard.jsx:151 | The fields of `split(/\s+/)` joined with single spaces give the text with each white-space run collapsed to one space: they are the text's words in order, with an empty field for a leading or trailing run |
| Text.SplitJoin | frontend/src/components/MonitorCard.jsx:151-153 | Joining such fields with single spaces and splitting again gives the fields back |
| Text.OrElse | frontend/src/components/MonitorUserDialog.jsx:110 | `s \|\| fallback` for a string: the string itself unless it is empty, then the fallback |
| Text.ToLower | backend/server.js:480 | `toLowerCase`: same length, each ASCII capital replaced by its lower-case letter (its code point plus 32), every other character kept |
| Schema.StatusName | backend/server.js:307-314 | Each stored status has its own API name |

## Left out

- Network I/O is not modelled: `axios.get`/`axios.head`, `dns.resolve4`, `ping.promise.probe`, `sslChecker`, and the favicon page fetch with its `<link rel=icon>` regular expression. Their answers are parameters of the probe functions and the two cron jobs.
- `node-cron` timers are left out, and so is any overlap or concurrency between ticks. One tick is a sequential loop over a snapshot of the monitor list, and the asynchronous callbacks of `updateMonitorStatus` are taken to complete in call order.
- Express routing, authentication middleware, CORS, cookies and the JSON response plumbing are not modelled. The handlers that only forward to the store (edit, pause, delete, history) are modelled by the store methods they call.
- JWT signing and bcrypt are library calls and are not modelled. The password comparison is a parameter of `Auth.Login`; the token is not modelled.
- The sign-up endpoint's own field check is not modelled beyond the store's `AddUser`, because the core is the validation in the form.
- The SQL chart aggregations and the `ALTER TABLE` migrations are not modelled. They depend on SQLite's `strftime`/`AVG` and floating-point averages.
- Floating point: `toFixed(1)`, `Math.round` on doubles and `new Date` parsing are replaced by exact integer arithmetic over integer timestamps.
- Dashboard.Percentile: the rank `p / 100 * (n - 1)` and its weight are exact hundredths here, where the source computes them in doubles (`0.95 * 3` is `2.8499999999999996`); a weighted value within rounding error of a half may round the other way in the source.
- Probes.CheckPing: the ping time is an integer number of milliseconds. A fractional time falls in the same latency band as its floor because the thresholds are integers.
- Probes.ProbeHost: the host is the text after the scheme up to the first `/`, `:`, `?`, `#` or `\`, lower-cased. It is a simplification of host parsing in the WHATWG URL Standard (section 4.4, URL parsing): no user-info, percent-decoding, IDNA or IPv4 normalisation, no skipping of extra slashes after the scheme (`http:///host`), and no IPv6 literals in brackets (`http://[::1]:80` gives `[` here). Nor does it fail where `new URL` throws on a non-numeric port (`http://h:abc`) or on a forbidden host code point; such a url gets a host here, and the error message of the throw is not modelled.
- Favicon.Origin: the default port is not removed from `host`, and user-info is not stripped. A url on which `new URL` throws (a non-numeric port such as `http://h:abc`, a forbidden host code point) gets an origin here instead of making the favicon fetch return `null`. It is defined for `http` and `https` urls only, in any letter case; a url with another scheme never gets this far, because fetching its page fails first and `fetchFavicon` returns `null`.
- Scheduler.RunCheckTick: a store fault is one flag per monitor for the whole tick, which is enough because a tick calls `updateMonitorStatus` once per monitor. A failure of the history `INSERT` after a successful `UPDATE` is not modelled apart from the foreign-key case. The whole tick uses one `now`, where the store evaluates `datetime('now')` at each write, so writes that straddle a second boundary may carry different times in the source.
- Text.ToLower and Text.ToUpper map ASCII letters only. `toUpperCase`/`toLowerCase` on other scripts are left out.
- The browser's own constraint validation of `type="url"` (the add-monitor url field for `http`, frontend/src/components/AddMonitorDialog.jsx:177) and `type="email"` (frontend/src/components/SignupDialog.jsx:179) is not modelled; it depends on the browser, and react-hook-form's rules are modelled instead.
- Forms.Validate counts characters where react-hook-form's `minLength` counts UTF-16 code units, so characters outside the Basic Multilingual Plane count once instead of twice.
- SavedOrder.SavedIds: stored values are already numbers. `Number(x)` turning a non-numeric entry into `NaN` is not modelled.
- SavedOrder.ApplySavedOrder: `savedSet.has` is modelled as sequence membership, which is equivalent for duplicate-free numeric ids.
- Store.Database.FindUser: `LIMIT 1` without `ORDER BY` is modelled as the first row in id order. The (login_id, email) pair is unique, so one login id can belong to several rows, and SQLite does not promise which one it returns.
- React rendering, charts, themes, dialogs' open/close animations, toasts and the `localStorage` calls themselves are not modelled. The storage entry is the `stored` field of `SavedOrder.OrderStore`.
- Layout.jsx, Header.jsx, App.jsx, the providers and the query hooks are not part of this model.

## Findings

| source | as written | input that shows it | evidently intended | confidence | as-written member | corrected member |
|---|---|---|---|---|---|---|
| frontend/src/components/MonitorCard.jsx:417 | The certificate panel is shown only for `monitor.type === 'https'`. The add-monitor form submits only `http`, `dns` or `icmp`, and the server's type detection from the url is commented out (backend/server.js:118-123). | A monitor of type `http` with url `https://example.com` for which the twelve-hour job stored a certificate snapshot: the card says the certificate is "not available for HTTP monitors". | Show the stored certificate for monitors whose url starts with `https://`, the same test the certificate job uses. | not executed | MonitorCard.StoredCertificateHidden | MonitorCard.StoredCertificateShown |
| frontend/src/components/MonitorCard.jsx:409 | The Renew button tests `sslCertificate.status === 'expiring-soon'`, but the stored snapshot has no `status` field (backend/server.js:448-459). | Any stored snapshot with `daysRemaining` 10 and `valid` true: its band is expiring soon, yet the button stays hidden. | Show Renew when the certificate's band (days and validity) is expiring soon. | not executed | MonitorCard.StoredCertificateHidden | MonitorCard.SslPanelFor |
