/**
 * Where a monitor's favicon lives: the `<link rel="icon">` target of its page
 * made absolute against the page's origin, or `/favicon.ico` on that origin
 * when the page names none and a `HEAD` request for it succeeds.
 */
module Favicon {
  import opened Wrappers
  import opened Text
  import opened Seqs
  import opened Probes

  /** What fetching the monitored page gave: no page, a body that is not text, or the captured icon `href`. */
  datatype PageFetch = FetchFailed | NotHtml | Html(iconHref: Option<string>)

  /** The characters that end the authority (host and port) of a special-scheme URL. */
  predicate EndsAuthority(c: char) {
    c == '/' || c == '?' || c == '#' || c == '\\'
  }

  /**
   * `${protocol}//${host}` of `new URL(url)` for a web url: the scheme and the
   * host with its port, both lower-cased (the constructor reads the scheme
   * whatever its case, so `HTTP://` is a web scheme too); `None` where the
   * constructor throws.
   */
  function Origin(url: string): (r: Option<string>)
    ensures r.Some? <==> HasWebScheme(ToLower(url)) && Hostname(ToLower(url)).Some?
    ensures r.Some? ==> StartsWith(r.value, "http://") || StartsWith(r.value, "https://")
  {
    LowerOrigin(ToLower(url))
  }

  /** The origin of a url already in lower case. */
  function LowerOrigin(lower: string): (r: Option<string>)
    ensures r.Some? <==> HasWebScheme(lower) && Hostname(lower).Some?
    ensures r.Some? ==> StartsWith(r.value, "http://") || StartsWith(r.value, "https://")
  {
    if !HasWebScheme(lower) then None
    else
      match Hostname(lower)
      case None => None
      case Some(_) =>
        var scheme := if StartsWith(lower, "http://") then "http://" else "https://";
        var origin := scheme + TakeUntil(lower[|scheme|..], EndsAuthority);
        assert origin[..|scheme|] == scheme;
        Some(origin)
  }

  /** Lower-casing twice is lower-casing once. */
  lemma ToLowerIdempotent(s: string)
    ensures ToLower(ToLower(s)) == ToLower(s)
  {
  }

  /** The origin does not depend on the case of the url. */
  lemma OriginIgnoresCase(url: string)
    ensures Origin(url) == Origin(ToLower(url))
  {
    ToLowerIdempotent(url);
  }

  /** Lower-casing distributes over concatenation. */
  lemma ToLowerAppend(a: string, b: string)
    ensures ToLower(a + b) == ToLower(a) + ToLower(b)
  {
  }

  /**
   * A web scheme in any case, a non-empty host and a path, query or fragment
   * give the lower-cased scheme and host as the origin: `HTTP://Example.com/x`
   * has the origin `http://example.com`.
   */
  lemma OriginOf(scheme: string, host: string, rest: string)
    requires ToLower(scheme) == "http://" || ToLower(scheme) == "https://"
    requires host != "" && forall i :: 0 <= i < |host| ==> !EndsHost(host[i])
    requires |rest| == 0 || EndsAuthority(rest[0])
    ensures Origin(scheme + host + rest) == Some(ToLower(scheme) + ToLower(host))
  {
    var s', h', r' := ToLower(scheme), ToLower(host), ToLower(rest);
    ToLowerAppend(scheme + host, rest);
    ToLowerAppend(scheme, host);
    assert forall i :: 0 <= i < |h'| ==> h'[i] == LowerChar(host[i]);
    OriginOfLower(s', h', r');
  }

  /** `OriginOf` for a url that is already in lower case. */
  lemma OriginOfLower(scheme: string, host: string, rest: string)
    requires scheme == "http://" || scheme == "https://"
    requires host != "" && forall i :: 0 <= i < |host| ==> !EndsHost(host[i])
    requires |rest| == 0 || EndsAuthority(rest[0])
    ensures LowerOrigin(scheme + host + rest) == Some(scheme + host)
  {
    var lower := scheme + host + rest;
    assert lower[..|scheme|] == scheme;
    if scheme == "https://" {
      assert !StartsWith(lower, "http://") by { assert lower[4] == 's'; }
    }
    assert lower[|scheme|..] == host + rest;
    forall i | 0 <= i < |host|
      ensures !EndsAuthority(host[i])
    {
      assert !EndsHost(host[i]);
    }
    TakeUntilSplit(host, rest, EndsAuthority);
    TakeUntilSplit(host, rest, EndsHost);
  }

  /**
   * `fetchFavicon`: `None` stands for the `null` it returns on every failure
   * (no page, no text, an origin that does not parse, a failed `HEAD`).
   */
  function ResolveFavicon(url: string, page: PageFetch, headOk: bool): (r: Option<string>)
    ensures r.Some? ==> StartsWith(r.value, "http")
    ensures !page.Html? ==> r.None?
    ensures page.Html? && page.iconHref.Some? && StartsWith(page.iconHref.value, "http") ==> r == page.iconHref
    ensures page == Html(None) ==>
      && (r.Some? <==> Origin(url).Some? && headOk)
      && (r.Some? ==> r.value == Origin(url).value + "/favicon.ico")
  {
    match page
    case FetchFailed => None
    case NotHtml => None
    case Html(Some(href)) =>
      assert StartsWith(href, "http") ==> href[0] == 'h';
      if StartsWith(href, "//") then Some("https:" + href)
      else if StartsWith(href, "/") then
        match Origin(url)
        case None => None
        case Some(o) => Some(o + href)
      else if !StartsWith(href, "http") then
        match Origin(url)
        case None => None
        case Some(o) => Some(o + "/" + href)
      else Some(href)
    case Html(None) =>
      match Origin(url)
      case None => None
      case Some(o) => if headOk then Some(o + "/favicon.ico") else None
  }

  /** A protocol-relative `href` is taken over `https` whatever the page's own url. */
  lemma ProtocolRelativeFirst(url: string, href: string, headOk: bool)
    requires StartsWith(href, "//")
    ensures ResolveFavicon(url, Html(Some(href)), headOk) == Some("https:" + href)
  {
  }

  /**
   * A relative `href` (neither protocol-relative nor starting with `http`)
   * becomes one path on the page's origin: the origin, one `/`, and the href
   * without its leading slash.
   */
  lemma RelativeIconOnOrigin(url: string, href: string, headOk: bool)
    requires !StartsWith(href, "//") && !StartsWith(href, "http")
    ensures var r := ResolveFavicon(url, Html(Some(href)), headOk);
      && (r.Some? <==> Origin(url).Some?)
      && (r.Some? ==> r.value == Origin(url).value + "/" + (if StartsWith(href, "/") then href[1..] else href))
  {
    if StartsWith(href, "/") {
      assert href == "/" + href[1..];
      AppendAssoc(Origin(url).GetOr(""), "/", href[1..]);
    }
  }

  /** A resolved favicon resolves to itself: it is already absolute. */
  lemma ResolveIdempotent(url: string, page: PageFetch, headOk: bool, url': string, headOk': bool)
    requires ResolveFavicon(url, page, headOk).Some?
    ensures var icon := ResolveFavicon(url, page, headOk).value;
      ResolveFavicon(url', Html(Some(icon)), headOk') == Some(icon)
  {
    var icon := ResolveFavicon(url, page, headOk).value;
    assert icon[..4] == "http";
    assert icon[0] == 'h';
    assert !StartsWith(icon, "/") by { assert icon[..1] != "/"; }
    assert !StartsWith(icon, "//") by { assert icon[..2] != "//"; }
  }
}
