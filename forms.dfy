/**
 * The client-side forms: the add-monitor dialog, the sign-up dialog and the
 * login page. Each field carries `required`, `minLength` and `pattern`
 * rules that the form library checks in that order, reporting the first
 * that fails; the three regular expressions are stated here over characters.
 */
module Forms {
  import opened Wrappers
  import opened Text
  import Probes
  import Auth

  // ---------------------------------------------------------------------
  // Patterns

  /** `/^https?:\/\/.+\..+/`: a web scheme, then a dot with at least one character on each side (no line breaks). */
  predicate HttpUrlMatches(url: string) {
    && (StartsWith(url, "http://") || StartsWith(url, "https://"))
    && var rest := if StartsWith(url, "http://") then url[7..] else url[8..];
       exists k :: 0 < k < |rest| - 1 && rest[k] == '.' && forall j :: 0 <= j <= k + 1 ==> !IsLineTerminator(rest[j])
  }

  /** `[A-Za-z\d@$!%*#?&]`. */
  predicate PasswordChar(c: char) {
    IsAsciiLetter(c) || IsDigit(c) || c in "@$!%*#?&"
  }

  /** `(?=.*X)` at the start of the text: some character of class `X` with no line break before it. */
  predicate LookaheadFinds(s: string, wanted: char -> bool) {
    exists i :: 0 <= i < |s| && wanted(s[i]) && forall j :: 0 <= j < i ==> !IsLineTerminator(s[j])
  }

  /** `/^(?=.*[A-Za-z])(?=.*\d)[A-Za-z\d@$!%*#?&]{8,}$/`, clause by clause. */
  predicate PasswordMatches(p: string) {
    && LookaheadFinds(p, IsAsciiLetter)
    && LookaheadFinds(p, IsDigit)
    && |p| >= 8
    && forall i :: 0 <= i < |p| ==> PasswordChar(p[i])
  }

  /** `[^\s@]`. */
  predicate EmailChar(c: char) {
    !IsSpace(c) && c != '@'
  }

  /** `[^\s@]*`. */
  predicate EmailRun(s: string) {
    forall i :: 0 <= i < |s| ==> EmailChar(s[i])
  }

  /**
   * `/^[^\s@]+@[^\s@]+\.[^\s@]+$/`: the `@` at `at` and a `.` at `dot` cut
   * the text into three non-empty runs without white space or `@`.
   */
  predicate EmailMatches(e: string) {
    exists at, dot ::
      && 0 < at && at + 1 < dot < |e| - 1
      && e[at] == '@' && e[dot] == '.'
      && EmailRun(e[..at]) && EmailRun(e[at + 1..])
  }

  datatype Pattern = HttpUrl | Password | Email

  predicate Matches(p: Pattern, s: string) {
    match p
    case HttpUrl => HttpUrlMatches(s)
    case Password => PasswordMatches(s)
    case Email => EmailMatches(s)
  }

  // ---------------------------------------------------------------------
  // Field rules

  datatype MinLength = MinLength(value: nat, message: string)
  datatype PatternRule = PatternRule(pattern: Pattern, message: string)

  /** The rules `register(field, {...})` attaches to a field; `required` holds its message. */
  datatype Rules = Rules(required: Option<string>, minLength: Option<MinLength>, pattern: Option<PatternRule>)

  predicate MinLengthHolds(r: Rules, value: string) {
    r.minLength.Some? ==> |value| >= r.minLength.value.value
  }

  predicate PatternHolds(r: Rules, value: string) {
    r.pattern.Some? ==> Matches(r.pattern.value.pattern, value)
  }

  /**
   * The error shown under a field, if any: an empty value only fails
   * `required` (the length and pattern rules skip it); a non-empty one fails
   * `minLength` before `pattern`.
   */
  function Validate(r: Rules, value: string): (err: Option<string>)
    ensures err.None? <==> if value == "" then r.required.None? else MinLengthHolds(r, value) && PatternHolds(r, value)
    ensures value == "" && err.Some? ==> err == r.required
    ensures value != "" && !MinLengthHolds(r, value) ==> err == Some(r.minLength.value.message)
    ensures value != "" && MinLengthHolds(r, value) && !PatternHolds(r, value) ==> err == Some(r.pattern.value.message)
  {
    if value == "" then r.required
    else if r.minLength.Some? && |value| < r.minLength.value.value then Some(r.minLength.value.message)
    else if r.pattern.Some? && !Matches(r.pattern.value.pattern, value) then Some(r.pattern.value.message)
    else None
  }

  // ---------------------------------------------------------------------
  // The add-monitor dialog

  const MonitorTypes: seq<string> := ["http", "dns", "icmp"]
  const DefaultType: string := "http"

  const MonitorNameRules: Rules :=
    Rules(Some("Please give your monitor a name"), Some(MinLength(2, "Name should be at least 2 characters")), None)

  /** The url rules for the selected type: every type requires a value, only `http` has a pattern. */
  function UrlRules(monitorType: string): (r: Rules)
    ensures r.required.Some? && r.minLength.None?
    ensures r.pattern.Some? <==> monitorType == "http"
    ensures r.pattern.Some? ==> r.pattern.value.pattern == HttpUrl
  {
    var required :=
      if monitorType == "dns" then "Enter the domain name you want to monitor"
      else if monitorType == "icmp" then "Enter the host or IP address to ping"
      else "Enter the URL you want to monitor";
    var pattern :=
      if monitorType == "http" then Some(PatternRule(HttpUrl, "Invalid URL - must start with http:// or https://"))
      else None;
    Rules(Some(required), None, pattern)
  }

  /** The body of `POST /api/monitors`. */
  datatype NewMonitor = NewMonitor(name: string, url: string, kind: string)

  /**
   * An `http` url the form accepts is one the probes treat as a web url; a
   * `dns` or `icmp` target only has to be non-empty.
   */
  lemma UrlRulesMeaning(monitorType: string, url: string)
    ensures monitorType == "http" ==> (Validate(UrlRules(monitorType), url).None? <==> HttpUrlMatches(url))
    ensures monitorType == "http" && Validate(UrlRules(monitorType), url).None? ==> Probes.HasWebScheme(url)
    ensures monitorType != "http" ==> (Validate(UrlRules(monitorType), url).None? <==> url != "")
  {
  }

  /** An example the `http` pattern accepts: a host with a dot. */
  lemma HttpUrlExamples()
    ensures HttpUrlMatches("https://example.com")
  {
    var u := "https://example.com";
    assert !StartsWith(u, "http://") by { assert u[4] == 's'; }
    var r := u[8..];
    assert r == "example.com";
    assert 0 < 7 < |r| - 1 && r[7] == '.';
    assert forall j :: 0 <= j <= 8 ==> !IsLineTerminator(r[j]);
  }

  /** Examples the `http` pattern refuses: a bare host name and a missing scheme. */
  lemma HttpUrlCounterExamples()
    ensures !HttpUrlMatches("https://localhost")
    ensures !HttpUrlMatches("example.com")
  {
    var v := "https://localhost";
    assert !StartsWith(v, "http://") by { assert v[4] == 's'; }
    var r := v[8..];
    assert r == "localhost";
    assert forall k :: 0 <= k < |r| ==> r[k] != '.';
    assert !StartsWith("example.com", "http://") by { assert "example.com"[0] == 'e'; }
    assert !StartsWith("example.com", "https://") by { assert "example.com"[0] == 'e'; }
  }

  /**
   * The dialog's state: whether it is open, the selected monitor type and the
   * two field values.
   */
  class AddMonitorDialog {
    var open: bool
    var monitorType: string
    var name: string
    var url: string

    /** Only the three type buttons set the type. */
    predicate Valid()
      reads this
    {
      monitorType in MonitorTypes
    }

    /** A closed dialog with empty fields and the `http` type selected. */
    constructor ()
      ensures Valid()
      ensures !open && monitorType == DefaultType && name == "" && url == ""
    {
      open, monitorType, name, url := false, DefaultType, "", "";
    }

    /** One of the type buttons. */
    method SelectType(t: string)
      requires t in MonitorTypes
      modifies this`monitorType
      ensures Valid() && monitorType == t
    {
      monitorType := t;
    }

    /** Typing into the two fields. */
    method Edit(newName: string, newUrl: string)
      modifies this`name, this`url
      ensures name == newName && url == newUrl
    {
      name, url := newName, newUrl;
    }

    /**
     * Submitting: nothing is sent while a field fails its rules; otherwise the
     * request carries the selected type, and a request the server accepts
     * closes the dialog, clears the fields and resets the type to `http`.
     */
    method Submit(accepted: bool) returns (sent: Option<NewMonitor>)
      requires Valid()
      modifies this
      ensures Valid()
      ensures sent.Some? <==>
        Validate(MonitorNameRules, old(name)).None? && Validate(UrlRules(old(monitorType)), old(url)).None?
      ensures sent.Some? ==> sent.value == NewMonitor(old(name), old(url), old(monitorType))
      ensures sent.Some? && accepted ==> !open && monitorType == DefaultType && name == "" && url == ""
      ensures sent.None? || !accepted ==>
        open == old(open) && monitorType == old(monitorType) && name == old(name) && url == old(url)
    {
      if Validate(MonitorNameRules, name).Some? || Validate(UrlRules(monitorType), url).Some? {
        return None;
      }
      sent := Some(NewMonitor(name, url, monitorType));
      if accepted {
        open, name, url, monitorType := false, "", "", DefaultType;
      }
    }

    /** Cancel: close, clear the fields, reset the type to `http`. */
    method Cancel()
      modifies this
      ensures Valid()
      ensures !open && monitorType == DefaultType && name == "" && url == ""
    {
      open, name, url, monitorType := false, "", "", DefaultType;
    }
  }

  // ---------------------------------------------------------------------
  // Sign-up and login

  const SignupNameRules: Rules :=
    Rules(Some("Please give your name"), Some(MinLength(2, "Name should be at least 2 characters")), None)

  const LoginIdRules: Rules :=
    Rules(Some("Please give your Login ID"), Some(MinLength(2, "Login ID should be at least 2 characters")), None)

  const SignupPasswordRules: Rules :=
    Rules(Some("Please enter the password"), Some(MinLength(8, "Password must be at least 8 characters")),
          Some(PatternRule(Password, "Password must contain letters and numbers")))

  const LoginPasswordRules: Rules :=
    Rules(Some("Please enter the password"), Some(MinLength(8, "Password must be at least 8 characters")),
          Some(PatternRule(Password, "Password must contain letters and numbers")))

  const EmailRules: Rules :=
    Rules(Some("Please enter the email"), None, Some(PatternRule(Email, "Please enter a valid email address")))

  /**
   * The sign-up name and the login id (on both forms) are accepted iff they
   * have two characters or more; an empty field shows its own prompt and a
   * one-character one the length message.
   */
  lemma ShortFieldsAccepted(v: string)
    ensures Validate(SignupNameRules, v).None? <==> |v| >= 2
    ensures Validate(LoginIdRules, v).None? <==> |v| >= 2
    ensures v == "" ==>
      Validate(SignupNameRules, v) == Some("Please give your name") &&
      Validate(LoginIdRules, v) == Some("Please give your Login ID")
    ensures |v| == 1 ==>
      Validate(SignupNameRules, v) == Some("Name should be at least 2 characters") &&
      Validate(LoginIdRules, v) == Some("Login ID should be at least 2 characters")
  {
  }

  /** The password requirement in words: eight or more allowed characters, among them a letter and a digit. */
  predicate PasswordRule(p: string) {
    && |p| >= 8
    && (exists i :: 0 <= i < |p| && IsAsciiLetter(p[i]))
    && (exists i :: 0 <= i < |p| && IsDigit(p[i]))
    && forall i :: 0 <= i < |p| ==> PasswordChar(p[i])
  }

  /**
   * The password field accepts exactly the passwords meeting the rule; the
   * pattern alone already demands eight characters, so the `minLength` rule
   * only changes which message is shown.
   */
  lemma PasswordAccepted(p: string)
    ensures Validate(SignupPasswordRules, p).None? <==> PasswordRule(p)
    ensures Validate(SignupPasswordRules.(minLength := None), p).None? <==> PasswordRule(p)
  {
    if PasswordRule(p) {
      var i :| 0 <= i < |p| && IsAsciiLetter(p[i]);
      var j :| 0 <= j < |p| && IsDigit(p[j]);
      assert forall k :: 0 <= k < |p| ==> !IsLineTerminator(p[k]);
      assert LookaheadFinds(p, IsAsciiLetter) by { assert IsAsciiLetter(p[i]); }
      assert LookaheadFinds(p, IsDigit) by { assert IsDigit(p[j]); }
    }
  }

  /** Login and sign-up check a password identically, so a password set at sign-up always passes the login form. */
  lemma LoginAcceptsSignupPassword(p: string)
    ensures Validate(LoginPasswordRules, p) == Validate(SignupPasswordRules, p)
    ensures Validate(SignupPasswordRules, p).None? ==> Validate(LoginPasswordRules, p).None?
  {
  }

  /** Occurrences of `@`. */
  function AtCount(e: string): nat {
    multiset(e)['@']
  }

  predicate IsAt(c: char) {
    c == '@'
  }

  /** The text before the first `@`. */
  function LocalPart(e: string): string {
    TakeUntil(e, IsAt)
  }

  /** The email requirement in words. */
  predicate EmailRule(e: string) {
    && NoSpace(e)
    && AtCount(e) == 1
    && var local := LocalPart(e);
       && |local| > 0
       && |local| < |e|
       && var domain := e[|local| + 1..];
          exists k :: 0 < k < |domain| - 1 && domain[k] == '.'
  }

  lemma NoAtCount(s: string)
    requires forall i :: 0 <= i < |s| ==> s[i] != '@'
    ensures AtCount(s) == 0
  {
    assert '@' !in s;
  }

  /** The email field accepts exactly the addresses meeting the rule. */
  lemma EmailAccepted(e: string)
    ensures Validate(EmailRules, e).None? <==> EmailRule(e)
  {
    if EmailMatches(e) {
      EmailMatchesRule(e);
    }
    if EmailRule(e) {
      EmailRuleMatches(e);
    }
  }

  /** Occurrences of `@` on either side of a position. */
  lemma AtCountSplit(e: string, at: nat)
    requires at < |e|
    ensures AtCount(e) == AtCount(e[..at]) + (if e[at] == '@' then 1 else 0) + AtCount(e[at + 1..])
  {
    assert e == e[..at] + [e[at]] + e[at + 1..];
  }

  /** The local part ends at the first `@`. */
  lemma LocalPartAt(e: string, at: nat)
    requires at < |e| && e[at] == '@'
    requires forall i :: 0 <= i < at ==> e[i] != '@'
    ensures LocalPart(e) == e[..at]
  {
    assert e[..at] + e[at..] == e;
    TakeUntilSplit(e[..at], e[at..], IsAt);
  }

  /** Two runs of address characters around an `@` hold no other `@` and no white space. */
  lemma RunsAroundAt(e: string, at: nat)
    requires at < |e| && e[at] == '@'
    requires EmailRun(e[..at]) && EmailRun(e[at + 1..])
    ensures forall i :: 0 <= i < |e| ==> (e[i] != '@' || i == at) && !IsSpace(e[i])
  {
    var before, after := e[..at], e[at + 1..];
    forall i | 0 <= i < |e|
      ensures e[i] != '@' || i == at
      ensures !IsSpace(e[i])
    {
      if i < at {
        assert e[i] == before[i] && EmailChar(before[i]);
      } else if i > at {
        assert e[i] == after[i - at - 1] && EmailChar(after[i - at - 1]);
      }
    }
  }

  lemma EmailMatchesRule(e: string)
    requires EmailMatches(e)
    ensures EmailRule(e)
  {
    var at, dot :| && 0 < at && at + 1 < dot < |e| - 1
                  && e[at] == '@' && e[dot] == '.'
                  && EmailRun(e[..at]) && EmailRun(e[at + 1..]);
    var before, after := e[..at], e[at + 1..];
    RunsAroundAt(e, at);
    assert NoSpace(e);
    assert AtCount(e) == 1 by {
      AtCountSplit(e, at);
      NoAtCount(before);
      NoAtCount(after);
    }
    LocalPartAt(e, at);
    assert e[|LocalPart(e)| + 1..] == after;
    assert after[dot - at - 1] == '.';
  }

  lemma EmailRuleMatches(e: string)
    requires EmailRule(e)
    ensures EmailMatches(e)
  {
    var local := LocalPart(e);
    var at := |local|;
    var domain := e[at + 1..];
    assert e[at] == '@';
    assert e[..at] == local;
    AtCountSplit(e, at);
    NoAtCount(local);
    assert AtCount(domain) == 0;
    assert '@' !in domain;
    var k :| 0 < k < |domain| - 1 && domain[k] == '.';
    assert e[..at] == local;
    assert EmailRun(local) by {
      forall i | 0 <= i < |local|
        ensures EmailChar(local[i])
      {
        assert local[i] == e[i];
      }
    }
    assert EmailRun(domain) by {
      forall i | 0 <= i < |domain|
        ensures EmailChar(domain[i])
      {
        assert domain[i] == e[at + 1 + i];
        assert domain[i] in domain;
      }
    }
    var dot := at + 1 + k;
    assert e[dot] == domain[k];
    assert 0 < at && at + 1 < dot < |e| - 1 && e[at] == '@' && e[dot] == '.';
  }

  // ---------------------------------------------------------------------
  // Login page reactions

  /** The `error` field of the login endpoint's JSON answer, for each refusal. */
  function ServerError(r: Auth.LoginReply): (msg: Option<string>)
    ensures msg.None? <==> r.LoggedIn?
    ensures msg.Some? ==> msg.value != ""
  {
    match r
    case MissingCredentials => Some("loginId and password are required")
    case LookupFailed => Some("Failed to fetch user")
    case UserNotFound => Some("User not found")
    case AccountPending => Some("Your account is pending approval")
    case AccountRejected => Some("Your account has been rejected")
    case WrongPassword => Some("Invalid password")
    case LoggedIn(_) => None
  }

  /** The toast after a failed login: the answer's `error` field when present, else "Login failed". */
  function LoginErrorMessage(responseError: Option<string>): (msg: string)
    ensures msg != ""
    ensures responseError.Some? && responseError.value != "" ==> msg == responseError.value
    ensures responseError.None? ==> msg == "Login failed"
  {
    match responseError
    case Some(e) => OrElse(e, "Login failed")
    case None => "Login failed"
  }

  /** Every refusal of the login endpoint is shown with the server's own reason, never the generic text. */
  lemma RefusalShowsReason(r: Auth.LoginReply)
    requires !r.LoggedIn?
    ensures LoginErrorMessage(ServerError(r)) == ServerError(r).value
    ensures LoginErrorMessage(ServerError(r)) != "Login failed"
  {
  }

  /** The login page's effect: once user information is present it navigates to the dashboard. */
  function Redirect<U>(userInfo: Option<U>): (to: Option<string>)
    ensures to.Some? <==> userInfo.Some?
    ensures to.Some? ==> to.value == "/dashboard"
  {
    if userInfo.Some? then Some("/dashboard") else None
  }
}
