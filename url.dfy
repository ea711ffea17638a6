/**
 * URL handling: parseURL splits `http://host[:port][/path]` into host,
 * port and path, and isHTTP tells whether a redirect target is an
 * absolute `http://` URL.
 */
module Url {
  import opened Wrappers
  import opened LibC
  import opened Numbers

  const SCHEME := "http://"
  /** char host[256]: at most 255 characters. */
  const HOST_BUFFER_SIZE := 256
  /** char path[1024]: at most 1023 characters. */
  const PATH_BUFFER_SIZE := 1024
  /** char portBuf[10]: the port walk reads at most 9 characters. */
  const PORT_DIGITS := 9
  const DEFAULT_PORT := 80

  datatype ParsedUrl = ParsedUrl(host: string, port: int, path: string)

  /** The reasons parseURL prints before exiting. */
  datatype UrlError = MissingScheme | InvalidHost | NonDigitPort | PortOutOfRange

  predicate ValidHost(h: string) {
    0 < |h| < HOST_BUFFER_SIZE && ':' !in h && '/' !in h
  }

  /** The shape of every URL parseURL accepts. */
  predicate WellFormed(u: ParsedUrl) {
    && ValidHost(u.host)
    && 1 <= u.port <= 65535
    && 0 < |u.path| < PATH_BUFFER_SIZE && u.path[0] == '/'
  }

  /** Where the host run that starts at `i` ends: the first ':' or '/', or the end. */
  function HostEnd(s: string, i: nat): (k: nat)
    requires i <= |s|
    ensures i <= k <= |s|
    ensures forall j :: i <= j < k ==> s[j] != ':' && s[j] != '/'
    ensures k < |s| ==> s[k] == ':' || s[k] == '/'
    decreases |s| - i
  {
    if i == |s| || s[i] == ':' || s[i] == '/' then i else HostEnd(s, i + 1)
  }

  /** Where the port walk that starts at `i` with `left` characters to go stops. */
  function PortEnd(s: string, i: nat, left: nat): (k: nat)
    requires i <= |s|
    ensures i <= k <= |s| && k <= i + left
    ensures forall j :: i <= j < k ==> s[j] != '/'
    ensures k < |s| && k < i + left ==> s[k] == '/'
    decreases left
  {
    if i == |s| || s[i] == '/' || left == 0 then i else PortEnd(s, i + 1, left - 1)
  }

  /** The path once the walk stands at `p`: the rest from a '/' (at most 1023 characters), else "/". */
  function PathAt(s: string, p: nat): string
    requires p <= |s|
  {
    if p < |s| && s[p] == '/' then Truncate(s[p..], PATH_BUFFER_SIZE - 1) else "/"
  }

  /**
   * The port clause whose first character is at `start`: the port and the
   * index the walk stops at, or the complaint.
   */
  function PortClause(url: string, start: nat): (r: Result<(int, nat), UrlError>)
    requires start <= |url|
    ensures r.Ok? ==> 1 <= r.value.0 <= 65535 && start <= r.value.1 <= |url|
  {
    var e := PortEnd(url, start, PORT_DIGITS);
    var digits := url[start..e];
    if !AllDigits(digits) then Err(NonDigitPort)
    else if !IsPositiveNumberUnder16Bit(digits) then Err(PortOutOfRange)
    else Ok((Strtol(digits).value, e))
  }

  /** parseURL as a function of the URL text. */
  function ParsedUrlOf(url: string): (r: Result<ParsedUrl, UrlError>)
    ensures r.Ok? ==> WellFormed(r.value)
  {
    if !StartsWith(url, SCHEME) then Err(MissingScheme)
    else
      var h := HostEnd(url, |SCHEME|);
      if h - |SCHEME| <= 0 || h - |SCHEME| >= HOST_BUFFER_SIZE then Err(InvalidHost)
      else
        AfterHost(url, h)
  }

  /** What parseURL does once the host run ends at `h`: the optional port clause, then the path. */
  function AfterHost(url: string, h: nat): Result<ParsedUrl, UrlError>
    requires |SCHEME| <= h <= |url|
  {
    var host := url[|SCHEME|..h];
    if h < |url| && url[h] == ':' then
      match PortClause(url, h + 1)
      case Err(e) => Err(e)
      case Ok((port, e)) => Ok(ParsedUrl(host, port, PathAt(url, e)))
    else Ok(ParsedUrl(host, DEFAULT_PORT, PathAt(url, h)))
  }

  /** parseURL: the pointer walk over the URL, filling host, port and path. */
  method ParseURL(url: string) returns (r: Result<ParsedUrl, UrlError>)
    ensures r == ParsedUrlOf(url)
  {
    if !StartsWith(url, SCHEME) {
      return Err(MissingScheme);
    }
    var p := |SCHEME|;
    while p < |url| && url[p] != ':' && url[p] != '/'
      invariant |SCHEME| <= p <= |url|
      invariant HostEnd(url, |SCHEME|) == HostEnd(url, p)
    {
      p := p + 1;
    }
    var lenHost := p - |SCHEME|;
    if lenHost <= 0 || lenHost >= HOST_BUFFER_SIZE {
      return Err(InvalidHost);
    }
    r := PortAndPath(url, p);
  }

  /** The rest of parseURL once the host is copied: the port walk after a ':', then the path from a '/'. */
  method PortAndPath(url: string, hostEnd: nat) returns (r: Result<ParsedUrl, UrlError>)
    requires |SCHEME| <= hostEnd <= |url|
    ensures r == AfterHost(url, hostEnd)
  {
    var p := hostEnd;
    var host := url[|SCHEME|..p];
    var port := DEFAULT_PORT;
    var path := "/";
    if p < |url| && url[p] == ':' {
      var clause := ReadPort(url, p + 1);
      if clause.Err? {
        return Err(clause.error);
      }
      port, p := clause.value.0, clause.value.1;
    }
    if p < |url| && url[p] == '/' {
      path := Truncate(url[p..], PATH_BUFFER_SIZE - 1);
    }
    assert path == PathAt(url, p);
    return Ok(ParsedUrl(host, port, path));
  }

  /** The port walk of parseURL: at most 9 characters up to '/', each a digit, then the range check. */
  method ReadPort(url: string, start: nat) returns (r: Result<(int, nat), UrlError>)
    requires start <= |url|
    ensures r == PortClause(url, start)
  {
    var digitsOnly, p, portBuf := CopyPort(url, start);
    if !digitsOnly {
      return Err(NonDigitPort);
    }
    if !IsPositiveNumberUnder16Bit(portBuf) {
      return Err(PortOutOfRange);
    }
    return Ok((Strtol(portBuf).value, p));
  }

  /** The copy into portBuf: stop at the end, a '/' or 9 characters, and give up at a non-digit. */
  method CopyPort(url: string, start: nat) returns (digitsOnly: bool, p: nat, portBuf: string)
    requires start <= |url|
    ensures digitsOnly <==> AllDigits(url[start..PortEnd(url, start, PORT_DIGITS)])
    ensures digitsOnly ==> p == PortEnd(url, start, PORT_DIGITS) && portBuf == url[start..p]
  {
    ghost var e := PortEnd(url, start, PORT_DIGITS);
    p := start;
    portBuf := "";
    var idx := 0;
    while p < |url| && url[p] != '/' && idx < PORT_DIGITS
      invariant start <= p <= |url| && idx == p - start && idx <= PORT_DIGITS
      invariant portBuf == url[start..p] && AllDigits(portBuf)
      invariant e == PortEnd(url, p, PORT_DIGITS - idx)
    {
      if !IsDigit(url[p]) {
        NonDigitInClause(url, start, p);
        return false, p, portBuf;
      }
      portBuf := portBuf + [url[p]];
      idx := idx + 1;
      p := p + 1;
    }
    assert e == p;
    digitsOnly := true;
  }

  /** A non-digit inside the port window makes the clause a NonDigitPort complaint. */
  lemma NonDigitInClause(url: string, start: nat, p: nat)
    requires start <= p < |url|
    requires p < PortEnd(url, start, PORT_DIGITS)
    requires !IsDigit(url[p])
    ensures !AllDigits(url[start..PortEnd(url, start, PORT_DIGITS)])
  {
    assert url[start..PortEnd(url, start, PORT_DIGITS)][p - start] == url[p];
  }

  /** isHTTP: the string starts with `http://`. */
  predicate IsHttp(u: string) {
    StartsWith(u, SCHEME)
  }

  /** isHTTP holds exactly of the URLs whose scheme parseURL accepts. */
  lemma IsHttpIffSchemeAccepted(u: string)
    ensures IsHttp(u) <==> ParsedUrlOf(u) != Err(MissingScheme)
  {
  }

  lemma {:induction false} HostEndAt(s: string, i: nat, k: nat)
    requires i <= k <= |s|
    requires forall j :: i <= j < k ==> s[j] != ':' && s[j] != '/'
    requires k < |s| ==> s[k] == ':' || s[k] == '/'
    ensures HostEnd(s, i) == k
    decreases k - i
  {
    if i < k {
      HostEndAt(s, i + 1, k);
    }
  }

  lemma {:induction false} PortEndAt(s: string, i: nat, left: nat, k: nat)
    requires i <= k <= |s| && k <= i + left
    requires forall j :: i <= j < k ==> s[j] != '/'
    requires k < |s| && k < i + left ==> s[k] == '/'
    ensures PortEnd(s, i, left) == k
    decreases left
  {
    if i < k {
      PortEndAt(s, i + 1, left - 1, k);
    }
  }

  /** A path that is empty or starts with '/'; parseURL keeps at most 1023 of its characters. */
  predicate PathPart(path: string) {
    path == [] || path[0] == '/'
  }

  function ExpectedPath(path: string): string {
    if path == [] then "/" else Truncate(path, PATH_BUFFER_SIZE - 1)
  }

  /** `http://host/path` gives back the host, port 80, and the path (or "/"), truncated to 1023 characters. */
  lemma ComposedUrlParsed(host: string, path: string)
    requires ValidHost(host) && PathPart(path)
    ensures ParsedUrlOf(SCHEME + host + path) == Ok(ParsedUrl(host, DEFAULT_PORT, ExpectedPath(path)))
  {
    var url := SCHEME + host + path;
    var h := |SCHEME| + |host|;
    assert url[..|SCHEME|] == SCHEME;
    assert forall j :: |SCHEME| <= j < h ==> url[j] == host[j - |SCHEME|];
    HostEndAt(url, |SCHEME|, h);
    assert url[|SCHEME|..h] == host;
    assert url[h..] == path;
  }

  /** Where the parts of `http://host:digits` followed by `rest` lie. */
  lemma PortUrlLayout(host: string, digits: string, rest: string)
    requires ValidHost(host) && |digits| <= PORT_DIGITS && AllDigits(digits)
    requires |digits| < PORT_DIGITS && rest != [] ==> rest[0] == '/'
    ensures var url := SCHEME + host + ":" + digits + rest;
      var h := |SCHEME| + |host|;
      && StartsWith(url, SCHEME) && HostEnd(url, |SCHEME|) == h && url[|SCHEME|..h] == host && url[h] == ':'
      && PortEnd(url, h + 1, PORT_DIGITS) == h + 1 + |digits| && url[h + 1..h + 1 + |digits|] == digits
      && url[h + 1 + |digits|..] == rest
  {
    var url := SCHEME + host + ":" + digits + rest;
    var h := |SCHEME| + |host|;
    var e := h + 1 + |digits|;
    assert url[..|SCHEME|] == SCHEME;
    assert forall j :: |SCHEME| <= j < h ==> url[j] == host[j - |SCHEME|];
    HostEndAt(url, |SCHEME|, h);
    assert url[|SCHEME|..h] == host;
    assert url[h] == ':';
    assert forall j :: h + 1 <= j < e ==> url[j] == digits[j - h - 1];
    assert e < |url| && e < h + 1 + PORT_DIGITS ==> url[e] == rest[0];
    PortEndAt(url, h + 1, PORT_DIGITS, e);
    assert url[h + 1..e] == digits;
    assert url[e..] == rest;
  }

  /** A URL whose host ends at `h` with a ':' and whose port walk stops at `e`, over an accepted numeral. */
  lemma PortUrlAt(url: string, h: nat, e: nat, digits: string)
    requires StartsWith(url, SCHEME) && |SCHEME| < h < |url| && h - |SCHEME| < HOST_BUFFER_SIZE
    requires HostEnd(url, |SCHEME|) == h && url[h] == ':'
    requires PortEnd(url, h + 1, PORT_DIGITS) == e && url[h + 1..e] == digits
    requires 0 < |digits| && AllDigits(digits) && 0 < Decimal(digits) < 65536
    ensures ParsedUrlOf(url) == Ok(ParsedUrl(url[|SCHEME|..h], Decimal(digits), PathAt(url, e)))
  {
    NumeralAccepted(digits);
    StrtolDigits(digits);
  }

  /** `http://host:digits/path` gives back the host, the port's value and the path, for 1 to 9 digits in range. */
  lemma ComposedUrlWithPortParsed(host: string, digits: string, path: string)
    requires ValidHost(host) && PathPart(path)
    requires 0 < |digits| <= PORT_DIGITS && AllDigits(digits) && 0 < Decimal(digits) < 65536
    ensures ParsedUrlOf(SCHEME + host + ":" + digits + path) == Ok(ParsedUrl(host, Decimal(digits), ExpectedPath(path)))
  {
    var url := SCHEME + host + ":" + digits + path;
    var h := |SCHEME| + |host|;
    var e := h + 1 + |digits|;
    PortUrlLayout(host, digits, path);
    PortUrlAt(url, h, e, digits);
  }

  /**
   * The port walk stops after 9 characters even when no '/' follows: the
   * characters after the ninth are dropped and the path stays "/".
   */
  lemma PortWindowDropsRest(host: string, digits: string, rest: string)
    requires ValidHost(host)
    requires |digits| == PORT_DIGITS && AllDigits(digits) && 0 < Decimal(digits) < 65536
    requires rest != [] && rest[0] != '/'
    ensures ParsedUrlOf(SCHEME + host + ":" + digits + rest) == Ok(ParsedUrl(host, Decimal(digits), "/"))
  {
    var url := SCHEME + host + ":" + digits + rest;
    var h := |SCHEME| + |host|;
    var e := h + 1 + |digits|;
    PortUrlLayout(host, digits, rest);
    PortUrlAt(url, h, e, digits);
    assert url[e] == rest[0];
  }

  /** A host of 256 or more characters is refused. */
  lemma LongHostRefused(host: string, rest: string)
    requires |host| >= HOST_BUFFER_SIZE && ':' !in host && '/' !in host
    requires rest == [] || rest[0] == ':' || rest[0] == '/'
    ensures ParsedUrlOf(SCHEME + host + rest) == Err(InvalidHost)
  {
    var url := SCHEME + host + rest;
    var h := |SCHEME| + |host|;
    assert url[..|SCHEME|] == SCHEME;
    assert forall j :: |SCHEME| <= j < h ==> url[j] == host[j - |SCHEME|];
    HostEndAt(url, |SCHEME|, h);
  }

  /** A URL that does not begin with `http://` is refused. */
  lemma OtherSchemeRefused()
    ensures ParsedUrlOf("ftp://x/") == Err(MissingScheme)
  {
    assert "ftp://x/"[..7] != SCHEME by { assert "ftp://x/"[0] == 'f'; }
  }

  /** An empty host is refused: the scheme followed by nothing, a `:` or a `/`. */
  lemma EmptyHostRefused(rest: string)
    requires rest == [] || rest[0] == ':' || rest[0] == '/'
    ensures ParsedUrlOf(SCHEME + rest) == Err(InvalidHost)
  {
    var url := SCHEME + rest;
    assert url[..|SCHEME|] == SCHEME;
    HostEndAt(url, |SCHEME|, |SCHEME|);
  }

  /** A port above 65535 is refused. */
  lemma LargePortRefused()
    ensures ParsedUrlOf("http://host:99999/") == Err(PortOutOfRange)
  {
    PortUrlLayout("host", "99999", "/");
    assert SCHEME + "host" + ":" + "99999" + "/" == "http://host:99999/";
    NumeralAccepted("99999");
    Decimal99999();
  }

  lemma Decimal99999()
    ensures Decimal("99999") == 99999
  {
    assert "99999"[..4] == "9999";
    assert "9999"[..3] == "999";
    assert "999"[..2] == "99";
    assert "99"[..1] == "9";
  }

  /**
   * Whatever the host and the rest, a non-digit inside the port window
   * (at most 9 characters up to `/` or the end) refuses the URL.
   */
  lemma NonDigitInPortRefused(url: string, h: nat, p: nat)
    requires StartsWith(url, SCHEME) && |SCHEME| < h < |url| && h - |SCHEME| < HOST_BUFFER_SIZE
    requires HostEnd(url, |SCHEME|) == h && url[h] == ':'
    requires h + 1 <= p < PortEnd(url, h + 1, PORT_DIGITS) && !IsDigit(url[p])
    ensures ParsedUrlOf(url) == Err(NonDigitPort)
  {
    NonDigitInClause(url, h + 1, p);
  }

  /**
   * Whatever the host and the rest, an all-digit port window that is empty
   * or whose value lies outside 1..65535 refuses the URL.
   */
  lemma PortOutOfRangeRefused(url: string, h: nat)
    requires StartsWith(url, SCHEME) && |SCHEME| < h < |url| && h - |SCHEME| < HOST_BUFFER_SIZE
    requires HostEnd(url, |SCHEME|) == h && url[h] == ':'
    requires AllDigits(url[h + 1..PortEnd(url, h + 1, PORT_DIGITS)])
    requires var w := url[h + 1..PortEnd(url, h + 1, PORT_DIGITS)]; w == [] || Decimal(w) == 0 || Decimal(w) > 65535
    ensures ParsedUrlOf(url) == Err(PortOutOfRange)
  {
    var w := url[h + 1..PortEnd(url, h + 1, PORT_DIGITS)];
    if w != [] {
      NumeralAccepted(w);
    }
  }

  /** The port `abc` is refused. */
  lemma NonDigitPortRefused()
    ensures ParsedUrlOf("http://host:abc/") == Err(NonDigitPort)
  {
    var v := "http://host:abc/";
    assert v[..7] == SCHEME;
    HostEndAt(v, 7, 11);
    PortEndAt(v, 12, PORT_DIGITS, 15);
    assert v[12..15] == "abc";
    assert !IsDigit("abc"[0]);
  }
}
