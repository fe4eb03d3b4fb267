/**
 * One check of one monitor: the host a DNS, ping or certificate probe is
 * aimed at, the answer the network gave (an input here), and the status,
 * latency and error text the check records.
 */
module Probes {
  import opened Wrappers
  import opened Text
  import opened Schema

  /** Below this many milliseconds a successful probe is `up`. */
  const UpBelowMs: int := 1000
  /** Below this many milliseconds (and not `up`) a successful probe is `slow`. */
  const SlowBelowMs: int := 5000

  /** The latency rule shared by all three probes; only applied to a successful probe. */
  function Classify(latencyMs: int): (s: Status)
    ensures s == Up <==> latencyMs < UpBelowMs
    ensures s == Slow <==> UpBelowMs <= latencyMs < SlowBelowMs
    ensures s == Down <==> SlowBelowMs <= latencyMs
  {
    if latencyMs < UpBelowMs then Up
    else if latencyMs < SlowBelowMs then Slow
    else Down
  }

  /** Health order of the classified statuses. */
  function Rank(s: Status): nat {
    match s
    case Up => 0
    case Slow => 1
    case Down => 2
    case Unknown => 3
  }

  /** A slower probe never classifies healthier. */
  lemma ClassifyMonotone(a: int, b: int)
    requires a <= b
    ensures Rank(Classify(a)) <= Rank(Classify(b))
  {
  }

  // ---------------------------------------------------------------------
  // Host names

  /** Monitors whose url starts (case-sensitively) with one of these are probed by host name. */
  predicate HasWebScheme(url: string) {
    StartsWith(url, "http://") || StartsWith(url, "https://")
  }

  /** The characters that end the host in a special-scheme URL (the port separator included). */
  predicate EndsHost(c: char) {
    c == '/' || c == '?' || c == '#' || c == '\\' || c == ':'
  }

  /**
   * `new URL(url).hostname` for a url with a web scheme: the text after `//`
   * up to the first of `/ ? # \ :`, ASCII-lowercased. An empty host makes the
   * constructor throw.
   */
  function Hostname(url: string): (r: Option<string>)
    requires HasWebScheme(url)
  {
    var rest := if StartsWith(url, "http://") then url[7..] else url[8..];
    var host := TakeUntil(rest, EndsHost);
    if host == "" then None else Some(ToLower(host))
  }

  /**
   * The name the DNS, ping and certificate probes are aimed at: a web url is
   * replaced by its host name, any other text is used as it is. `Failure`
   * carries the message of the error `new URL` throws.
   */
  function ProbeHost(url: string): (r: Result<string, string>)
    ensures !HasWebScheme(url) ==> r == Success(url)
    ensures r.Failure? ==> r.error == "Invalid URL" && HasWebScheme(url)
    ensures HasWebScheme(url) && r.Success? ==>
      && r.value != ""
      && forall i :: 0 <= i < |r.value| ==> !EndsHost(r.value[i]) && !('A' <= r.value[i] <= 'Z')
  {
    if HasWebScheme(url) then
      match Hostname(url)
      case None => Failure("Invalid URL")
      case Some(h) => Success(h)
    else Success(url)
  }

  /**
   * A host put between a web scheme and a path comes back out of `ProbeHost`
   * lower-cased; a host already in lower case comes back unchanged.
   */
  lemma HostRoundTrip(scheme: string, host: string, rest: string)
    requires scheme == "http://" || scheme == "https://"
    requires host != "" && forall i :: 0 <= i < |host| ==> !EndsHost(host[i])
    requires |rest| == 0 || EndsHost(rest[0])
    ensures ProbeHost(scheme + host + rest) == Success(ToLower(host))
    ensures (forall i :: 0 <= i < |host| ==> !('A' <= host[i] <= 'Z')) ==>
      ProbeHost(scheme + host + rest) == Success(host)
  {
    var url := scheme + host + rest;
    assert url[..|scheme|] == scheme;
    if scheme == "http://" {
      assert url[7..] == host + rest;
    } else {
      assert !StartsWith(url, "http://") by { assert url[4] == 's'; }
      assert url[8..] == host + rest;
    }
    TakeUntilSplit(host, rest, EndsHost);
    if forall i :: 0 <= i < |host| ==> !('A' <= host[i] <= 'Z') {
      assert ToLower(host) == host;
    }
  }

  // ---------------------------------------------------------------------
  // Probe answers and outcomes

  /** What `dns.resolve4` did: resolved, or threw an error with this message ("" when it has none). */
  datatype DnsReply = Resolved | ResolveError(message: string)

  /**
   * What `ping.promise.probe` did: answered with `alive` and, when the time is
   * a number, the round-trip time in whole milliseconds; or threw.
   */
  datatype PingReply = PingAnswer(alive: bool, time: Option<int>) | PingError(message: string)

  /**
   * What `axios.get` did: a 2xx response with its status code, or a thrown
   * error with the response's status text ("" without a response) and message.
   */
  datatype HttpReply = HttpResponse(statusCode: int) | HttpError(statusText: string, message: string)

  /** The arguments a check passes to `updateMonitorStatus`. */
  datatype ProbeOutcome = ProbeOutcome(status: Status, responseTime: int, error: Option<string>)

  /** A check that failed: recorded `down`, with a non-empty message. */
  predicate Failed(r: ProbeOutcome) {
    r.status == Down && r.error.Some? && r.error.value != ""
  }

  /**
   * `checkDns`: a resolved name is classified by the elapsed time; an invalid
   * url or a resolver error records `down` with the error's message or
   * "DNS resolution failed".
   */
  function CheckDns(url: string, reply: DnsReply, elapsedMs: int): (r: ProbeOutcome)
    ensures r.responseTime == elapsedMs
    ensures r.error.None? <==> ProbeHost(url).Success? && reply.Resolved?
    ensures r.error.None? ==> r.status == Classify(elapsedMs)
    ensures r.error.Some? ==> Failed(r)
    ensures ProbeHost(url).Success? && reply.ResolveError? ==>
      r.error == Some(OrElse(reply.message, "DNS resolution failed"))
  {
    match ProbeHost(url)
    case Failure(msg) => ProbeOutcome(Down, elapsedMs, Some(msg))
    case Success(_) =>
      match reply
      case Resolved => ProbeOutcome(Classify(elapsedMs), elapsedMs, None)
      case ResolveError(m) => ProbeOutcome(Down, elapsedMs, Some(OrElse(m, "DNS resolution failed")))
  }

  /**
   * `checkPing`: an answer that is not alive is `down` without an error; an
   * alive one is classified by the reported time when there is one and by the
   * elapsed time otherwise; the recorded latency is always the elapsed time.
   */
  function CheckPing(url: string, reply: PingReply, elapsedMs: int): (r: ProbeOutcome)
    ensures r.responseTime == elapsedMs
    ensures r.error.None? <==> ProbeHost(url).Success? && reply.PingAnswer?
    ensures r.error.None? ==> r.status == if reply.alive then Classify(reply.time.GetOr(elapsedMs)) else Down
    ensures r.error.Some? ==> Failed(r)
    ensures ProbeHost(url).Success? && reply.PingError? ==> r.error == Some(OrElse(reply.message, "Ping failed"))
  {
    match ProbeHost(url)
    case Failure(msg) => ProbeOutcome(Down, elapsedMs, Some(msg))
    case Success(_) =>
      match reply
      case PingAnswer(alive, time) =>
        var status := if alive then Classify(time.GetOr(elapsedMs)) else Down;
        ProbeOutcome(status, elapsedMs, None)
      case PingError(m) => ProbeOutcome(Down, elapsedMs, Some(OrElse(m, "Ping failed")))
  }

  /**
   * `checkUptime`: only status 200 is classified, any other response is
   * `down` without an error; a thrown error records its status text, else its
   * message, else "Unknown error".
   */
  function CheckHttp(reply: HttpReply, elapsedMs: int): (r: ProbeOutcome)
    ensures r.responseTime == elapsedMs
    ensures r.error.None? <==> reply.HttpResponse?
    ensures reply.HttpResponse? ==> r.status == if reply.statusCode == 200 then Classify(elapsedMs) else Down
    ensures r.error.Some? ==> Failed(r)
    ensures reply.HttpError? ==>
      r.error == Some(if reply.statusText != "" then reply.statusText
                      else OrElse(reply.message, "Unknown error"))
  {
    match reply
    case HttpResponse(code) =>
      ProbeOutcome(if code == 200 then Classify(elapsedMs) else Down, elapsedMs, None)
    case HttpError(text, m) =>
      ProbeOutcome(Down, elapsedMs, Some(OrElse(text, OrElse(m, "Unknown error"))))
  }

  // ---------------------------------------------------------------------
  // Certificates

  /** The `issuer` field of an `ssl-checker` report: an object with `O` and `CN`, or plain text. */
  datatype Issuer = IssuerFields(o: string, cn: string) | IssuerText(text: string)

  /** The fields of an `ssl-checker` report that `checkSSL` reads. */
  datatype SslReport = SslReport(daysRemaining: int, valid: bool, issuer: Issuer, validFrom: string, validTo: string)

  /**
   * `checkSSL`: the snapshot stored for a certificate report, or `None` when
   * the url has an invalid host or the checker threw (the failure is only
   * logged and the stored snapshot is left alone).
   */
  function CheckSsl(url: string, report: Option<SslReport>): (r: Option<SslInfo>)
    ensures r.Some? <==> ProbeHost(url).Success? && report.Some?
    ensures r.Some? ==>
      && r.value.domain == ProbeHost(url).value
      && r.value.daysRemaining == report.value.daysRemaining
      && r.value.valid == report.value.valid
      && r.value.issuedDate == report.value.validFrom
      && r.value.expirationDate == report.value.validTo
      && !r.value.autoRenewal
      && r.value.issuer == match report.value.issuer
                           case IssuerFields(o, cn) => if o != "" then o else cn
                           case IssuerText(t) => t
  {
    match ProbeHost(url)
    case Failure(_) => None
    case Success(host) =>
      match report
      case None => None
      case Some(rep) =>
        var issuer := match rep.issuer
                      case IssuerFields(o, cn) => OrElse(o, cn)
                      case IssuerText(t) => t;
        Some(SslInfo(rep.daysRemaining, rep.valid, issuer, host, rep.validFrom, rep.validTo, false))
  }
}
