/** `_validate_url`: sorts a link target into anchor, local path or external URL and
    reports what is wrong with it. The file system, the URL parser and the network are
    consulted through functions the caller supplies. */
module Urls {
  import opened Text
  import opened Wrappers
  import opened Issues

  /** What `requests.head(url, timeout=5, allow_redirects=True)` came back with:
      a response, a timeout, or any other failure. */
  datatype ProbeResult = Status(code: int) | Timeout | OtherFailure

  /** The scheme and netloc fields of `urllib.parse.urlparse`'s result. */
  datatype UrlParts = UrlParts(scheme: string, netloc: string)

  /** The outside world: `os.path.exists`, `urlparse` (None when it raises) and the HEAD probe. */
  datatype Oracles = Oracles(
    pathExists: string -> bool,
    urlParse: string -> Option<UrlParts>,
    headProbe: string -> ProbeResult)

  /** posixpath.join(a, b) for two components. */
  function JoinPath(a: string, b: string): (r: string)
    ensures StartsWith(b, "/") ==> r == b
    ensures !StartsWith(b, "/") ==> StartsWith(r, a) && EndsWith(r, b)
  {
    if StartsWith(b, "/") then b
    else if a == "" || EndsWith(a, "/") then a + b
    else a + "/" + b
  }

  /** The prefixes that make a link target "external". */
  predicate HasLinkScheme(url: string) {
    StartsWith(url, "http://") || StartsWith(url, "https://")
    || StartsWith(url, "mailto:") || StartsWith(url, "tel:")
  }

  predicate IsAnchor(url: string) {
    StartsWith(url, "#")
  }

  predicate IsLocalPath(url: string) {
    !IsAnchor(url) && !HasLinkScheme(url)
  }

  predicate IsExternal(url: string) {
    !IsAnchor(url) && HasLinkScheme(url)
  }

  /** The file a local link points at: `os.path.join(base_dir, url.split('#')[0])`. */
  function LocalTarget(baseDir: string, url: string): string {
    JoinPath(baseDir, Split(url, '#')[0])
  }

  /** urlparse succeeded and found both a scheme and a netloc. */
  predicate WellFormed(env: Oracles, url: string) {
    env.urlParse(url).Some? && env.urlParse(url).value.scheme != "" && env.urlParse(url).value.netloc != ""
  }

  /** r consists of exactly one issue, of kind k. */
  predicate Reports(r: seq<Issue>, k: IssueKind) {
    |r| == 1 && r[0].kind == k
  }

  /** The issues `_validate_url(n, url, original)` appends. */
  function UrlIssues(n: nat, url: string, original: string, baseDir: string, env: Oracles): (r: seq<Issue>)
    ensures |r| <= 1 && (r != [] ==> r[0].line == n)
    ensures r != [] ==> r[0].originalText == original
    ensures IsAnchor(url) ==> r == []
    ensures Reports(r, BrokenLocalLink) <==> IsLocalPath(url) && !env.pathExists(LocalTarget(baseDir, url))
    ensures Reports(r, InvalidUrlFormat) <==> IsExternal(url) && env.urlParse(url).Some? && !WellFormed(env, url)
    ensures Reports(r, BrokenExternalLink) <==>
              IsExternal(url) && WellFormed(env, url) && env.headProbe(url).Status? && env.headProbe(url).code >= 400
    ensures Reports(r, LinkTimeout) <==> IsExternal(url) && WellFormed(env, url) && env.headProbe(url).Timeout?
    ensures r == [] || Reports(r, BrokenLocalLink) || Reports(r, InvalidUrlFormat)
              || Reports(r, BrokenExternalLink) || Reports(r, LinkTimeout)
    ensures r != [] ==> r[0].severity == (if r[0].kind == LinkTimeout then Warning else Error)
  {
    if IsAnchor(url) then
      []
    else if !HasLinkScheme(url) then
      var fullPath := LocalTarget(baseDir, url);
      if !env.pathExists(fullPath) then
        [Issue(n, BrokenLocalLink, Error, "Local file not found: " + url, original,
               "Verify file exists at: " + fullPath)]
      else []
    else
      match env.urlParse(url)
      case None => []
      case Some(parsed) =>
        if parsed.scheme == "" || parsed.netloc == "" then
          [Issue(n, InvalidUrlFormat, Error, "Invalid URL format: " + url, original,
                 "Use full URL with scheme: https://" + url)]
        else
          match env.headProbe(url)
          case Status(code) =>
            if code >= 400 then
              [Issue(n, BrokenExternalLink, Error,
                     "Broken link (HTTP " + IntToString(code) + "): " + url, original,
                     "Update URL or remove the link")]
            else []
          case Timeout =>
            [Issue(n, LinkTimeout, Warning, "Link timed out: " + url, original, "Verify URL is accessible")]
          case OtherFailure => []
  }

  /** str(code) for an integer. */
  function IntToString(i: int): string {
    if i < 0 then "-" + NatToString(-i) else NatToString(i)
  }

  /** The file system is consulted only for local paths, the probe only for well-formed
      external URLs: swapping either oracle elsewhere changes nothing. */
  lemma OraclesConsulted(n: nat, url: string, original: string, baseDir: string, env: Oracles,
                         exists': string -> bool, probe': string -> ProbeResult)
    ensures !IsLocalPath(url) ==>
              UrlIssues(n, url, original, baseDir, env) == UrlIssues(n, url, original, baseDir, env.(pathExists := exists'))
    ensures !(IsExternal(url) && WellFormed(env, url)) ==>
              UrlIssues(n, url, original, baseDir, env) == UrlIssues(n, url, original, baseDir, env.(headProbe := probe'))
  {
  }

  // ----- A model of urllib.parse.urlsplit's scheme and netloc, used only to show what
  // ----- the validator does with mailto:, tel: and host-less http:// targets.

  predicate IsAsciiLetter(c: char) {
    ('a' <= c <= 'z') || ('A' <= c <= 'Z')
  }

  /** urllib.parse.scheme_chars. */
  predicate IsSchemeChar(c: char) {
    IsAsciiLetter(c) || IsDigit(c) || c == '+' || c == '-' || c == '.'
  }

  /** Drop the leading C0 control characters and spaces. */
  function LStripC0(s: string): (r: string)
    ensures |r| <= |s|
    decreases |s|
  {
    if s != [] && s[0] <= ' ' then LStripC0(s[1..]) else s
  }

  /** Remove every tab, carriage return and line feed. */
  function RemoveUnsafe(s: string): (r: string)
    ensures forall i :: 0 <= i < |r| ==> r[i] != '\t' && r[i] != '\r' && r[i] != '\n'
    decreases |s|
  {
    if s == [] then []
    else (if s[0] in {'\t', '\r', '\n'} then [] else [s[0]]) + RemoveUnsafe(s[1..])
  }

  function Min(a: nat, b: nat): nat {
    if a <= b then a else b
  }

  /** The netloc urlsplit takes from what follows the scheme: after `//`, up to the first
      `/`, `?` or `#`; None for its "Invalid IPv6 URL" error (unbalanced brackets). */
  function Netloc(rest: string): Option<string> {
    if StartsWith(rest, "//") then
      var delim := Min(Min(IndexFrom(rest, 2, '/'), IndexFrom(rest, 2, '?')), IndexFrom(rest, 2, '#'));
      var netloc := rest[2..delim];
      if ('[' in netloc) != (']' in netloc) then None else Some(netloc)
    else
      Some("")
  }

  /** urlsplit's scheme and netloc, for netlocs without non-ASCII characters; None when it
      raises for unbalanced brackets. The checks newer Python versions add on a bracketed
      host and on a non-ASCII netloc are not part of this model. */
  function UrlSplitParts(url: string): Option<UrlParts> {
    var u := RemoveUnsafe(LStripC0(url));
    var i := IndexFrom(u, 0, ':');
    var hasScheme := 0 < i < |u| && IsAsciiLetter(u[0]) && forall c :: 0 <= c < i ==> IsSchemeChar(u[c]);
    var scheme := if hasScheme then Lower(u[..i]) else "";
    var rest := if hasScheme then u[i + 1..] else u;
    match Netloc(rest)
    case None => None
    case Some(netloc) => Some(UrlParts(scheme, netloc))
  }

  lemma {:induction false} RemoveUnsafeNoop(s: string)
    requires forall i :: 0 <= i < |s| ==> s[i] != '\t' && s[i] != '\r' && s[i] != '\n'
    ensures RemoveUnsafe(s) == s
    decreases |s|
  {
    if s != [] {
      RemoveUnsafeNoop(s[1..]);
      assert s == [s[0]] + s[1..];
    }
  }

  /** A lower-case scheme, a colon and a rest free of tabs and line breaks split into that
      scheme and the netloc of the rest. */
  lemma SchemeSplit(scheme: string, rest: string)
    requires scheme != [] && forall i :: 0 <= i < |scheme| ==> 'a' <= scheme[i] <= 'z'
    requires forall i :: 0 <= i < |rest| ==> rest[i] != '\t' && rest[i] != '\r' && rest[i] != '\n'
    ensures UrlSplitParts(scheme + ":" + rest) ==
              match Netloc(rest) case None => None case Some(nl) => Some(UrlParts(scheme, nl))
  {
    var url := scheme + ":" + rest;
    assert LStripC0(url) == url;
    RemoveUnsafeNoop(url);
    IndexFromIs(url, 0, ':', |scheme|);
    assert url[..|scheme|] == scheme;
    assert url[|scheme| + 1..] == rest;
    assert Lower(scheme) == scheme;
  }

  /** A `mailto:` or `tel:` target without `//` after the scheme has an empty netloc, so it
      passes the external-scheme gate and is then reported as `invalid_url_format`. */
  lemma SchemeOnlyTargetIsInvalid(n: nat, scheme: string, rest: string, original: string,
                                  baseDir: string, env: Oracles)
    requires scheme == "mailto" || scheme == "tel"
    requires forall i :: 0 <= i < |rest| ==> rest[i] != '\t' && rest[i] != '\r' && rest[i] != '\n'
    requires !StartsWith(rest, "//")
    requires env.urlParse == UrlSplitParts
    ensures Reports(UrlIssues(n, scheme + ":" + rest, original, baseDir, env), InvalidUrlFormat)
  {
    var url := scheme + ":" + rest;
    assert StartsWith(url, scheme + ":");
    SchemeSplit(scheme, rest);
  }

  /** `http://` with nothing after it has no netloc: `invalid_url_format`. */
  lemma HostlessHttpIsInvalid(n: nat, original: string, baseDir: string, env: Oracles)
    requires env.urlParse == UrlSplitParts
    ensures Reports(UrlIssues(n, "http://", original, baseDir, env), InvalidUrlFormat)
  {
    var rest := "//";
    assert IndexFrom(rest, 2, '/') == 2;
    assert Netloc(rest) == Some("");
    SchemeSplit("http", rest);
    var url := "http" + ":" + rest;
    assert url == "http://";
    assert UrlSplitParts(url) == Some(UrlParts("http", ""));
    assert StartsWith(url, "http://") && !IsAnchor(url);
  }
}
