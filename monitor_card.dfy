/**
 * What one monitor card shows: the status panel, badge and border, the
 * colour bands for latency and uptime, the truncated error text, the
 * latency summary over the response-time chart, and the certificate panel.
 */
module MonitorCard {
  import opened Wrappers
  import opened Text
  import opened Numeric
  import opened Schema
  import Scheduler
  import Forms

  /** The colour families the card uses: emerald, amber, red and (while collecting) blue. */
  datatype Tone = Green | Amber | Red | Blue

  /** How bad a tone looks. */
  function Severity(t: Tone): nat {
    match t
    case Green => 0
    case Amber => 1
    case Red => 2
    case Blue => 0
  }

  // ---------------------------------------------------------------------
  // Status panel, badge and border

  /** The three statuses a check can record. */
  predicate Checked(status: string) {
    status == "up" || status == "slow" || status == "down"
  }

  datatype StatusInfo = StatusInfo(title: string, tone: Tone)

  /**
   * `getStatusInfo`: a checked status gets its own label and colour; any other
   * text (the stored `unknown` included) shows a blue "Collecting data...".
   */
  function StatusInfoOf(status: string): (r: StatusInfo)
    ensures Checked(status) <==> r.tone != Blue
    ensures !Checked(status) <==> r.title == "Collecting data..."
    ensures r.tone == Green <==> status == "up"
    ensures r.tone == Red <==> status == "down"
  {
    match status
    case "up" => StatusInfo("Operational", Green)
    case "slow" => StatusInfo("Degraded", Amber)
    case "down" => StatusInfo("Down", Red)
    case _ => StatusInfo("Collecting data...", Blue)
  }

  /** The card's left border: green for `up`, amber for `slow`, red for anything else. */
  function BorderTone(status: string): (r: Tone)
    ensures r != Blue
    ensures r == Green <==> status == "up"
    ensures r == Amber <==> status == "slow"
  {
    if status == "up" then Green else if status == "slow" then Amber else Red
  }

  /**
   * The border agrees with the status panel for a checked status; a monitor
   * still collecting data has a blue panel but a red border.
   */
  lemma BorderAgreesWithPanel(status: string)
    ensures Checked(status) ==> BorderTone(status) == StatusInfoOf(status).tone
    ensures !Checked(status) ==> BorderTone(status) == Red && StatusInfoOf(status).tone == Blue
  {
  }

  const Waiting: string := "\U{23F3} WAITING"

  /** The badge: `⏳ WAITING` for `unknown`, the upper-cased status otherwise. */
  function Badge(status: string): (r: string)
    ensures status == "unknown" ==> r == Waiting
    ensures status != "unknown" ==> r == ToUpper(status) && |r| == |status|
  {
    if status == "unknown" then Waiting else ToUpper(status)
  }

  /** For every stored status the badge is `⏳ WAITING` or reads back as the status. */
  lemma BadgeOfStoredStatus(s: Status)
    ensures s == Unknown ==> Badge(StatusName(s)) == Waiting
    ensures s != Unknown ==> ToLower(Badge(StatusName(s))) == StatusName(s) && Badge(StatusName(s)) != Waiting
  {
    if s != Unknown {
      CaseRoundTrip(StatusName(s));
      assert |Badge(StatusName(s))| <= 4 < |Waiting|;
    }
  }

  // ---------------------------------------------------------------------
  // Colour bands

  /** `getResponseTimeColor`. */
  function ResponseTimeTone(ms: int): (r: Tone)
    ensures r == Green <==> ms < 500
    ensures r == Amber <==> 500 <= ms < 2000
    ensures r == Red <==> 2000 <= ms
  {
    if ms < 500 then Green else if ms < 2000 then Amber else Red
  }

  /** The uptime figure's colour, for an uptime in tenths of a percent. */
  function UptimeTone(tenths: int): (r: Tone)
    ensures r == Green <==> 990 <= tenths
    ensures r == Amber <==> 950 <= tenths < 990
    ensures r == Red <==> tenths < 950
  {
    if tenths >= 990 then Green else if tenths >= 950 then Amber else Red
  }

  /** A slower response never looks better, and a higher uptime never looks worse. */
  lemma TonesMonotone(a: int, b: int)
    requires a <= b
    ensures Severity(ResponseTimeTone(a)) <= Severity(ResponseTimeTone(b))
    ensures Severity(UptimeTone(b)) <= Severity(UptimeTone(a))
  {
  }

  // ---------------------------------------------------------------------
  // Truncated text

  /** The default `maxWords` of `truncateText`. */
  const MaxWords: nat := 8

  /** `truncateText(text)`: the first `MaxWords` words joined by single spaces plus `...`, or the text itself. */
  function TruncateText(text: string): (r: string)
    ensures |SplitWords(text)| <= MaxWords ==> r == text
    ensures |SplitWords(text)| > MaxWords ==> |r| >= 3 && r[|r| - 3..] == "..."
  {
    var words := SplitWords(text);
    if |words| > MaxWords then Join(words[..MaxWords], " ") + "..." else text
  }

  /**
   * A text of at most `MaxWords` words is shown unchanged; a longer one is cut
   * to exactly `MaxWords` words, the last carrying the `...`.
   */
  lemma TruncateTextWords(text: string)
    ensures var words := SplitWords(text);
      && (TruncateText(text) == text <==> |words| <= MaxWords)
      && (|words| > MaxWords ==>
            SplitWords(TruncateText(text)) == words[..MaxWords - 1] + [words[MaxWords - 1] + "..."])
  {
    var words := SplitWords(text);
    if |words| > MaxWords {
      CutFields(words);
      assert |SplitWords(TruncateText(text))| == MaxWords;
    }
  }

  /** Cutting fields to the first `MaxWords` and appending `...` splits back into those words, the last carrying the `...`. */
  lemma CutFields(words: seq<string>)
    requires Fields(words) && |words| > MaxWords
    ensures SplitWords(Join(words[..MaxWords], " ") + "...") == words[..MaxWords - 1] + [words[MaxWords - 1] + "..."]
  {
    var kept := words[..MaxWords];
    JoinAppend(kept, " ", "...");
    var shown := kept[..MaxWords - 1] + [kept[MaxWords - 1] + "..."];
    assert kept[..MaxWords - 1] == words[..MaxWords - 1];
    assert Fields(shown) by {
      assert NoSpace(words[MaxWords - 1] + "...") by {
        assert NoSpace(words[MaxWords - 1]);
      }
      forall k | 0 <= k < |shown|
        ensures NoSpace(shown[k])
      {
        if k < MaxWords - 1 {
          assert shown[k] == words[k];
        }
      }
      forall k | 0 < k < |shown| - 1
        ensures shown[k] != ""
      {
        assert shown[k] == words[k];
      }
    }
    SplitJoin(shown);
  }

  // ---------------------------------------------------------------------
  // Latency summary

  function Sum(xs: seq<int>): int
    decreases |xs|
  {
    if |xs| == 0 then 0 else Sum(xs[..|xs| - 1]) + xs[|xs| - 1]
  }

  lemma {:induction false} SumBounds(xs: seq<int>, lo: int, hi: int)
    requires forall i :: 0 <= i < |xs| ==> lo <= xs[i] <= hi
    ensures |xs| * lo <= Sum(xs) <= |xs| * hi
    decreases |xs|
  {
    if |xs| > 0 {
      SumBounds(xs[..|xs| - 1], lo, hi);
    }
  }

  /** `Math.min(...xs)` for a non-empty list. */
  function Min(xs: seq<int>): (m: int)
    requires |xs| > 0
    ensures m in xs && forall i :: 0 <= i < |xs| ==> m <= xs[i]
    decreases |xs|
  {
    if |xs| == 1 then xs[0]
    else
      var m' := Min(xs[..|xs| - 1]);
      assert m' in xs;
      if xs[|xs| - 1] < m' then xs[|xs| - 1] else m'
  }

  /** `Math.max(...xs)` for a non-empty list. */
  function Max(xs: seq<int>): (m: int)
    requires |xs| > 0
    ensures m in xs && forall i :: 0 <= i < |xs| ==> xs[i] <= m
    decreases |xs|
  {
    if |xs| == 1 then xs[0]
    else
      var m' := Max(xs[..|xs| - 1]);
      assert m' in xs;
      if xs[|xs| - 1] > m' then xs[|xs| - 1] else m'
  }

  datatype LatencySummary = LatencySummary(avg: int, min: int, max: int)

  /**
   * The Avg, Min and Max figures over the response-time chart's per-bucket
   * averages; all three fall back to the monitor's last response time when
   * the chart is empty.
   */
  function Summary(chart: seq<int>, responseTime: int): (r: LatencySummary)
    ensures |chart| == 0 ==> r == LatencySummary(responseTime, responseTime, responseTime)
    ensures |chart| > 0 ==>
      && r.min in chart && r.max in chart
      && (forall i :: 0 <= i < |chart| ==> r.min <= chart[i] <= r.max)
      && r.min <= r.avg <= r.max
  {
    if |chart| == 0 then LatencySummary(responseTime, responseTime, responseTime)
    else
      var lo, hi := Min(chart), Max(chart);
      SumBounds(chart, lo, hi);
      RoundDivBounds(Sum(chart), |chart|, lo);
      RoundDivBounds(Sum(chart), |chart|, hi);
      LatencySummary(RoundDiv(Sum(chart), |chart|), lo, hi)
  }

  /** A chart whose buckets all show the same latency summarises to that latency. */
  lemma SummaryOfFlatChart(chart: seq<int>, v: int, responseTime: int)
    requires |chart| > 0 && forall i :: 0 <= i < |chart| ==> chart[i] == v
    ensures Summary(chart, responseTime) == LatencySummary(v, v, v)
  {
  }

  // ---------------------------------------------------------------------
  // Certificate panel

  /** `getSSLStatusInfo(...).status`. */
  datatype SslBand = Expired | ExpiringSoon | ValidCert

  datatype SslStatus = SslStatus(band: SslBand, title: string, tone: Tone)

  /** `getSSLStatusInfo`: invalid or out of days is expired, under 30 days expiring soon, else valid. */
  function SslStatusInfo(days: int, isValid: bool): (r: SslStatus)
    ensures r.band == Expired <==> !isValid || days <= 0
    ensures r.band == ExpiringSoon <==> isValid && 0 < days < 30
    ensures r.band == ValidCert <==> isValid && 30 <= days
  {
    if !isValid || days <= 0 then SslStatus(Expired, "Expired", Red)
    else if days < 30 then SslStatus(ExpiringSoon, "Expiring Soon", Amber)
    else SslStatus(ValidCert, "Valid", Green)
  }

  /** `getDaysRemainingColor`. */
  function DaysRemainingTone(days: int, isValid: bool): (r: Tone)
    ensures r == Red <==> !isValid || days <= 0
    ensures r == Amber <==> isValid && 0 < days < 30
    ensures r == Green <==> isValid && 30 <= days
  {
    if !isValid || days <= 0 then Red else if days < 30 then Amber else Green
  }

  /** The days figure is coloured by exactly the certificate status's bands; more days never look worse. */
  lemma SslBandsAgree(days: int, isValid: bool)
    ensures DaysRemainingTone(days, isValid) == SslStatusInfo(days, isValid).tone
    ensures forall later :: days <= later ==>
      Severity(SslStatusInfo(later, isValid).tone) <= Severity(SslStatusInfo(days, isValid).tone)
  {
  }

  /**
   * The `sslCertificate` object as the card reads it: `daysRemaining` (absent,
   * null and 0 are all falsy), `valid`, and a `status` field.
   */
  datatype CertView = CertView(daysRemaining: Option<int>, valid: Option<bool>, status: Option<string>)

  /** The object the monitor list sends for a stored snapshot: it has no `status` field. */
  function ViewOf(info: SslInfo): (v: CertView)
    ensures v.status.None?
  {
    CertView(Some(info.daysRemaining), Some(info.valid), None)
  }

  /** `sslCert.daysRemaining || 0`. */
  function DaysOf(cert: CertView): int {
    cert.daysRemaining.GetOr(0)
  }

  /** `sslCert.valid !== false`: only an explicit `false` is invalid. */
  predicate IsValid(cert: CertView) {
    cert.valid != Some(false)
  }

  /** The days figure: the count when positive, else "Expired". */
  datatype DaysText = DaysLeft(days: nat) | ExpiredText

  function DaysShown(days: int): (r: DaysText)
    ensures r.ExpiredText? <==> days <= 0
    ensures r.DaysLeft? ==> r.days == days
  {
    if days > 0 then DaysLeft(days) else ExpiredText
  }

  /** What the certificate section of the card contains. */
  datatype SslPanel =
    | CertificateShown(status: SslStatus, days: DaysText, renew: bool)
    | CertificateUnavailable
    | NotForHttp

  /** The filled-in panel for a certificate, with the Renew button's visibility. */
  function CertificatePanel(cert: CertView, renew: bool): (p: SslPanel)
    ensures p.CertificateShown?
    ensures p.status == SslStatusInfo(DaysOf(cert), IsValid(cert))
    ensures p.days.ExpiredText? <==> DaysOf(cert) <= 0
  {
    CertificateShown(SslStatusInfo(DaysOf(cert), IsValid(cert)), DaysShown(DaysOf(cert)), renew)
  }

  /**
   * A shown certificate says "Expired" in the days figure exactly when the
   * status badge says so, unless the certificate is invalid with days left.
   */
  lemma DaysTextAgreesWithBand(cert: CertView, renew: bool)
    ensures var p := CertificatePanel(cert, renew);
      && (p.days.ExpiredText? ==> p.status.band == Expired)
      && (IsValid(cert) ==> (p.days.ExpiredText? <==> p.status.band == Expired))
  {
  }

  /**
   * The certificate section as written: keyed on `monitor.type === 'https'`,
   * with the Renew button keyed on the certificate object's `status` field.
   */
  function SslPanelAsWritten(monitorType: string, cert: Option<CertView>): (p: SslPanel)
    ensures monitorType != "https" ==> p == NotForHttp
    ensures monitorType == "https" && cert.None? ==> p == CertificateUnavailable
    ensures monitorType == "https" && cert.Some? ==>
      && p.CertificateShown?
      && p.status == SslStatusInfo(DaysOf(cert.value), IsValid(cert.value))
      && (p.renew <==> cert.value.status == Some("expiring-soon"))
  {
    if monitorType == "https" && cert.Some? then
      CertificatePanel(cert.value, cert.value.status == Some("expiring-soon"))
    else if monitorType == "https" then CertificateUnavailable
    else NotForHttp
  }

  /**
   * The add-monitor form only submits `http`, `dns` or `icmp`, while the
   * certificate job stores a snapshot for every active monitor with an
   * `https://` url; for every such monitor the card shows "not available for
   * HTTP monitors", and a snapshot the monitor list sends never turns on the
   * Renew button whatever the type.
   */
  lemma StoredCertificateHidden(m: Monitor, info: SslInfo)
    requires m.kind in Forms.MonitorTypes && Scheduler.WantsCertificate(m)
    ensures SslPanelAsWritten(m.kind, Some(ViewOf(info))) == NotForHttp
    ensures forall t :: SslPanelAsWritten(t, Some(ViewOf(info))).CertificateShown? ==>
      !SslPanelAsWritten(t, Some(ViewOf(info))).renew
  {
  }

  /**
   * The certificate section keyed the way the backend decides to check a
   * certificate (an `https://` url, any case), with the Renew button shown
   * for a certificate expiring soon.
   */
  function SslPanelFor(url: string, cert: Option<CertView>): (p: SslPanel)
    ensures StartsWith(ToLower(url), "https://") && cert.Some? <==> p.CertificateShown?
    ensures p.CertificateShown? ==> (p.renew <==> p.status.band == ExpiringSoon)
    ensures !StartsWith(ToLower(url), "https://") ==> p == NotForHttp
  {
    if StartsWith(ToLower(url), "https://") then
      match cert
      case Some(c) => CertificatePanel(c, SslStatusInfo(DaysOf(c), IsValid(c)).band == ExpiringSoon)
      case None => CertificateUnavailable
    else NotForHttp
  }

  /** Every snapshot the certificate job stores for a monitor is shown on its card. */
  lemma StoredCertificateShown(m: Monitor, info: SslInfo)
    requires Scheduler.WantsCertificate(m)
    ensures var p := SslPanelFor(m.url, Some(ViewOf(info)));
      && p.CertificateShown?
      && p.status == SslStatusInfo(info.daysRemaining, info.valid)
      && (p.renew <==> info.valid && 0 < info.daysRemaining < 30)
  {
  }
}
