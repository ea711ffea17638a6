/**
 * The redirect loop of main: parse the current URL, build and send the
 * request, read the response, and follow a 3xx response whose Location is
 * an http:// URL, with the same name=value parameters on every hop, until a
 * response is not followed or the redirect counter passes 10.  Everything
 * the network does is the `server` input: what happened on the n-th
 * connection, given the request sent on it.
 */
module Redirect {
  import opened Wrappers
  import opened LibC
  import opened Url
  import opened Request
  import opened Inspect
  import opened Args

  /** char currentURL[1024] */
  const URL_BUFFER_SIZE := 1024
  /** The abort test is redirectCount > MAX_REDIRECTS. */
  const MAX_REDIRECTS := 10
  /** Hence at most this many connections are made. */
  const MAX_ATTEMPTS := MAX_REDIRECTS + 1

  /** What one connection came to: a failure of connect, send or recv, or the received bytes. */
  datatype Exchange = ConnectFailed | SendFailed | ReceiveFailed | Received(bytes: seq<char>)

  /** One request the client issued: the URL it came from, its parts, and the request text. */
  datatype Attempt = Attempt(url: string, host: string, port: int, path: string, request: string)

  /** Why the client exits with status 1. */
  datatype Failure = BadUrl(reason: UrlError) | BuildFailed | ConnectError | SendError | ReceiveError | TooManyRedirects

  /**
   * A run of the loop: the requests built and handed to a connection, in
   * order (the last one may have failed to connect and so was never sent),
   * and either the last response, which the client prints before it exits
   * normally, or the failure it exits with.
   */
  datatype Outcome = Outcome(trace: seq<Attempt>, result: Result<seq<char>, Failure>)

  /** The connections the loop sees: the n-th one, given what is sent on it. */
  type Server = (nat, Attempt) -> Exchange

  /** The URL to follow, when the exchange is a 3xx response with an http:// Location. */
  function Redirection(e: Exchange): Option<string> {
    match e
    case Received(bytes) =>
      var response := CString(bytes);
      var status := StatusCode(response);
      if 300 <= status < 400 then
        match Location(response)
        case Some(location) => if IsHttp(location) then Some(location) else None
        case None => None
      else None
    case _ => None
  }

  /**
   * A response is followed exactly when its status is in [300, 400) and it
   * has a Location that starts with "http://"; the target always fits
   * currentURL whole.
   */
  lemma RedirectionIff(e: Exchange, target: string)
    ensures Redirection(e) == Some(target) <==>
      && e.Received?
      && 300 <= StatusCode(CString(e.bytes)) < 400
      && Location(CString(e.bytes)) == Some(target)
      && IsHttp(target)
    ensures Redirection(e).Some? ==> Truncate(Redirection(e).value, URL_BUFFER_SIZE - 1) == Redirection(e).value
  {
  }

  /** The attempts of a run put in front of a later run. */
  function Prefixed(trace: seq<Attempt>, o: Outcome): Outcome {
    Outcome(trace + o.trace, o.result)
  }

  /** What an attempt is: the parts parseURL found in its URL and the request built from them. */
  predicate Issued(cmd: CmdArgs, a: Attempt) {
    && ParsedUrlOf(a.url) == Ok(ParsedUrl(a.host, a.port, a.path))
    && BuildRequest(a.host, a.path, cmd.params) == Ok(a.request)
  }

  /** Connection `n`, carrying attempt `a`, received `response`, which is not followed. */
  predicate EndsWith(server: Server, n: nat, a: Attempt, response: seq<char>) {
    server(n, a) == Received(response) && Redirection(server(n, a)).None?
  }

  /** A pass that ends normally made one request, whose response was not followed. */
  predicate StepEnds(server: Server, s: Step, n: nat) {
    s.Stop? && s.outcome.result.Ok? ==> |s.outcome.trace| == 1 && EndsWith(server, n, s.outcome.trace[0], s.outcome.result.value)
  }

  /** One pass of the loop body: either the loop stops here, or attempt `a` is redirected to `next`. */
  datatype Step = Stop(outcome: Outcome) | Hop(attempt: Attempt, next: string)

  /**
   * One pass of the loop body for `url` on connection `count`: parseURL,
   * buildHTTPRequest, the exchange, then the redirect test.
   */
  function StepAt(cmd: CmdArgs, url: string, count: nat, server: Server): (r: Step)
    ensures r.Hop? ==> r.attempt.url == url && Issued(cmd, r.attempt) && Redirection(server(count, r.attempt)) == Some(r.next)
    ensures r.Stop? ==> |r.outcome.trace| <= 1 && r.outcome.result != Err(TooManyRedirects)
    ensures r.Stop? && r.outcome.trace != [] ==> r.outcome.trace[0].url == url && Issued(cmd, r.outcome.trace[0])
    ensures StepEnds(server, r, count)
  {
    match ParsedUrlOf(url)
    case Err(reason) => Stop(Outcome([], Err(BadUrl(reason))))
    case Ok(parsed) =>
      match BuildRequest(parsed.host, parsed.path, cmd.params)
      case Err(_) => Stop(Outcome([], Err(BuildFailed)))
      case Ok(request) =>
        var a := Attempt(url, parsed.host, parsed.port, parsed.path, request);
        var e := server(count, a);
        match e
        case ConnectFailed => Stop(Outcome([a], Err(ConnectError)))
        case SendFailed => Stop(Outcome([a], Err(SendError)))
        case ReceiveFailed => Stop(Outcome([a], Err(ReceiveError)))
        case Received(bytes) =>
          match Redirection(e)
          case Some(next) => Hop(a, next)
          case None => Stop(Outcome([a], Ok(bytes)))
  }

  /** One pass of the loop body for each URL and counter value. */
  type Body = (string, nat) -> Step

  /**
   * The loop itself, over any body: stop once the counter passes 10, else
   * run the body and either stop or go round again with the counter one
   * higher and the new URL.
   */
  function Loop(body: Body, url: string, count: nat): Outcome
    requires count <= MAX_ATTEMPTS
    decreases MAX_ATTEMPTS - count
  {
    if count > MAX_REDIRECTS then Outcome([], Err(TooManyRedirects))
    else match body(url, count)
      case Stop(o) => o
      case Hop(a, next) => Prefixed([a], Loop(body, next, count + 1))
  }

  /** The body of main's loop for the parsed command line and the connections `server` describes. */
  function MainBody(cmd: CmdArgs, server: Server): Body {
    (u: string, n: nat) => StepAt(cmd, u, n, server)
  }

  /** The loop of main. */
  function Follow(cmd: CmdArgs, url: string, count: nat, server: Server): Outcome
    requires count <= MAX_ATTEMPTS
  {
    Loop(MainBody(cmd, server), url, count)
  }

  // ---- The loop over any body ----

  /** A body that issues at most one request when it stops, for the URL it was given. */
  ghost predicate Bounded(body: Body) {
    forall u: string, n: nat ::
      && (body(u, n).Hop? ==> body(u, n).attempt.url == u)
      && (body(u, n).Stop? ==> |body(u, n).outcome.trace| <= 1 && body(u, n).outcome.result != Err(TooManyRedirects))
      && (body(u, n).Stop? && body(u, n).outcome.trace != [] ==> body(u, n).outcome.trace[0].url == u)
  }

  /** At most 11 - count requests, the first one for `url`. */
  lemma {:induction false} LoopLength(body: Body, url: string, count: nat)
    requires count <= MAX_ATTEMPTS && Bounded(body)
    ensures |Loop(body, url, count).trace| <= MAX_ATTEMPTS - count
    ensures Loop(body, url, count).trace != [] ==> Loop(body, url, count).trace[0].url == url
    decreases MAX_ATTEMPTS - count
  {
    if count <= MAX_REDIRECTS && body(url, count).Hop? {
      LoopLength(body, body(url, count).next, count + 1);
    }
  }

  /** A property every request of every pass has holds of every request of the loop. */
  lemma {:induction false} LoopKeeps(body: Body, p: Attempt -> bool, url: string, count: nat, i: nat)
    requires count <= MAX_ATTEMPTS
    requires forall u: string, n: nat :: body(u, n).Hop? ==> p(body(u, n).attempt)
    requires forall u: string, n: nat, k: nat :: body(u, n).Stop? && k < |body(u, n).outcome.trace| ==> p(body(u, n).outcome.trace[k])
    requires i < |Loop(body, url, count).trace|
    ensures p(Loop(body, url, count).trace[i])
    decreases MAX_ATTEMPTS - count
  {
    var o := Loop(body, url, count);
    if body(url, count).Hop? {
      var rest := Loop(body, body(url, count).next, count + 1);
      assert o.trace == [body(url, count).attempt] + rest.trace;
      if i > 0 {
        LoopKeeps(body, p, body(url, count).next, count + 1, i - 1);
        assert o.trace[i] == rest.trace[i - 1];
      }
    }
  }

  /** A relation every redirecting pass has to its successor's URL links consecutive requests. */
  lemma {:induction false} LoopChains(body: Body, r: (nat, Attempt, string) -> bool, url: string, count: nat, i: nat)
    requires count <= MAX_ATTEMPTS && Bounded(body)
    requires forall u: string, n: nat :: body(u, n).Hop? ==> r(n, body(u, n).attempt, body(u, n).next)
    requires i + 1 < |Loop(body, url, count).trace|
    ensures var o := Loop(body, url, count); r(count + i, o.trace[i], o.trace[i + 1].url)
    decreases MAX_ATTEMPTS - count
  {
    var step := body(url, count);
    if count > MAX_REDIRECTS || step.Stop? {
      assert false;
    }
    var o := Loop(body, url, count);
    var rest := Loop(body, step.next, count + 1);
    LoopUnfold(body, url, count);
    assert o.trace[i + 1] == rest.trace[i];
    if i > 0 {
      LoopChains(body, r, step.next, count + 1, i - 1);
      assert o.trace[i] == rest.trace[i - 1];
      assert count + 1 + (i - 1) == count + i;
    } else {
      LoopLength(body, step.next, count + 1);
      assert rest.trace[0].url == step.next;
      assert o.trace[0] == step.attempt;
      assert r(count, step.attempt, step.next);
    }
  }

  /** One round of a redirecting pass: its request, then the rest of the loop. */
  lemma LoopUnfold(body: Body, url: string, count: nat)
    requires count <= MAX_REDIRECTS && body(url, count).Hop?
    ensures var rest := Loop(body, body(url, count).next, count + 1);
      && Loop(body, url, count).result == rest.result
      && Loop(body, url, count).trace == [body(url, count).attempt] + rest.trace
      && (forall k :: 0 < k < |Loop(body, url, count).trace| ==> Loop(body, url, count).trace[k] == rest.trace[k - 1])
  {
  }

  /** A normal end comes after at least one request. */
  lemma {:induction false} LoopEndsAfterRequest(body: Body, server: Server, url: string, count: nat)
    requires count <= MAX_ATTEMPTS
    requires forall u: string, n: nat :: StepEnds(server, body(u, n), n)
    requires Loop(body, url, count).result.Ok?
    ensures Loop(body, url, count).trace != []
  {
    assert count <= MAX_REDIRECTS;
    var step := body(url, count);
    assert StepEnds(server, step, count);
    if step.Hop? {
      LoopUnfold(body, url, count);
    }
  }

  /** A normal end is the normal end of the pass that made the last request, number k, on connection count + k. */
  lemma {:induction false} LoopEnds(body: Body, server: Server, url: string, count: nat, k: nat, connection: nat)
    requires count <= MAX_ATTEMPTS
    requires forall u: string, n: nat :: StepEnds(server, body(u, n), n)
    requires Loop(body, url, count).result.Ok?
    requires k + 1 == |Loop(body, url, count).trace| && connection == count + k
    ensures EndsWith(server, connection, Loop(body, url, count).trace[k], Loop(body, url, count).result.value)
    decreases MAX_ATTEMPTS - count
  {
    assert count <= MAX_REDIRECTS;
    var step := body(url, count);
    assert StepEnds(server, step, count);
    if step.Hop? {
      LoopUnfold(body, url, count);
      LoopEnds(body, server, step.next, count + 1, k - 1, connection);
    } else {
      assert Loop(body, url, count) == step.outcome;
    }
  }

  /** The abort comes after 11 - count requests. */
  lemma {:induction false} LoopAbortLength(body: Body, url: string, count: nat)
    requires count <= MAX_ATTEMPTS && Bounded(body)
    requires Loop(body, url, count).result == Err(TooManyRedirects)
    ensures |Loop(body, url, count).trace| == MAX_ATTEMPTS - count
    decreases MAX_ATTEMPTS - count
  {
    if count <= MAX_REDIRECTS {
      var step := body(url, count);
      if step.Stop? {
        assert false;
      }
      LoopUnfold(body, url, count);
      LoopAbortLength(body, step.next, count + 1);
    }
  }

  /** The abort comes from a pass that redirected: the last request, number k, on connection count + k. */
  lemma {:induction false} LoopAbortRedirected(body: Body, h: (nat, Attempt) -> bool, url: string, count: nat, k: nat, connection: nat)
    requires count <= MAX_ATTEMPTS && Bounded(body)
    requires forall u: string, n: nat :: body(u, n).Hop? ==> h(n, body(u, n).attempt)
    requires Loop(body, url, count).result == Err(TooManyRedirects)
    requires k + 1 == |Loop(body, url, count).trace| && connection == count + k
    ensures h(connection, Loop(body, url, count).trace[k])
    decreases MAX_ATTEMPTS - count
  {
    assert count <= MAX_REDIRECTS;
    var step := body(url, count);
    if step.Stop? {
      assert false;
    }
    LoopUnfold(body, url, count);
    if k > 0 {
      LoopAbortRedirected(body, h, step.next, count + 1, k - 1, connection);
    } else {
      LoopAbortLength(body, step.next, count + 1);
    }
  }

  /** A failure no pass ends with is not how the loop ends. */
  lemma {:induction false} LoopAvoids(body: Body, f: Failure, url: string, count: nat)
    requires count <= MAX_ATTEMPTS && f != TooManyRedirects
    requires forall u: string, n: nat :: body(u, n).Stop? ==> body(u, n).outcome.result != Err(f)
    ensures Loop(body, url, count).result != Err(f)
    decreases MAX_ATTEMPTS - count
  {
    if count <= MAX_REDIRECTS && body(url, count).Hop? {
      LoopAvoids(body, f, body(url, count).next, count + 1);
    }
  }

  /** A body that always redirects, from URLs of a kind to URLs of that kind, runs into the abort. */
  lemma {:induction false} LoopRedirectsForever(body: Body, q: string -> bool, url: string, count: nat)
    requires count <= MAX_ATTEMPTS && q(url)
    requires forall u: string, n: nat :: q(u) ==> body(u, n).Hop? && q(body(u, n).next)
    ensures Loop(body, url, count).result == Err(TooManyRedirects)
    ensures |Loop(body, url, count).trace| == MAX_ATTEMPTS - count
    decreases MAX_ATTEMPTS - count
  {
    if count <= MAX_REDIRECTS {
      LoopRedirectsForever(body, q, body(url, count).next, count + 1);
    }
  }

  // ---- The loop of main ----

  /** Main's body issues at most one request when it stops, for the URL it was given. */
  lemma MainBodyBounded(cmd: CmdArgs, server: Server)
    ensures Bounded(MainBody(cmd, server))
  {
    forall u: string, n: nat
      ensures && (MainBody(cmd, server)(u, n).Hop? ==> MainBody(cmd, server)(u, n).attempt.url == u)
              && (MainBody(cmd, server)(u, n).Stop? ==> |MainBody(cmd, server)(u, n).outcome.trace| <= 1 && MainBody(cmd, server)(u, n).outcome.result != Err(TooManyRedirects))
              && (MainBody(cmd, server)(u, n).Stop? && MainBody(cmd, server)(u, n).outcome.trace != [] ==> MainBody(cmd, server)(u, n).outcome.trace[0].url == u)
    {
      assert MainBody(cmd, server)(u, n) == StepAt(cmd, u, n, server);
    }
  }

  /** Main's body hops only on a response it follows. */
  lemma MainBodyHopsOnRedirect(cmd: CmdArgs, server: Server)
    ensures forall u: string, n: nat :: MainBody(cmd, server)(u, n).Hop? ==>
      Redirection(server(n, MainBody(cmd, server)(u, n).attempt)) == Some(MainBody(cmd, server)(u, n).next)
  {
    forall u: string, n: nat | MainBody(cmd, server)(u, n).Hop?
      ensures Redirection(server(n, MainBody(cmd, server)(u, n).attempt)) == Some(MainBody(cmd, server)(u, n).next)
    {
      assert MainBody(cmd, server)(u, n) == StepAt(cmd, u, n, server);
    }
  }

  /** The loop of main issues at most 11 - count requests, the first for `url`. */
  lemma FollowLength(cmd: CmdArgs, url: string, count: nat, server: Server)
    requires count <= MAX_ATTEMPTS
    ensures |Follow(cmd, url, count, server).trace| <= MAX_ATTEMPTS - count
    ensures Follow(cmd, url, count, server).trace != [] ==> Follow(cmd, url, count, server).trace[0].url == url
  {
    LoopLength(MainBody(cmd, server), url, count);
  }

  /** The i-th request is built from its own URL and the same parameters, on every hop. */
  lemma FollowIssuesFromParams(cmd: CmdArgs, url: string, count: nat, server: Server, i: nat)
    requires count <= MAX_ATTEMPTS
    requires i < |Follow(cmd, url, count, server).trace|
    ensures Issued(cmd, Follow(cmd, url, count, server).trace[i])
  {
    LoopKeeps(MainBody(cmd, server), (a: Attempt) => Issued(cmd, a), url, count, i);
  }

  /** Each request but the last was answered, on its own connection, by a redirect to the next one's URL. */
  lemma FollowChains(cmd: CmdArgs, url: string, count: nat, server: Server, i: nat)
    requires count <= MAX_ATTEMPTS
    requires i + 1 < |Follow(cmd, url, count, server).trace|
    ensures var o := Follow(cmd, url, count, server);
      Redirection(server(count + i, o.trace[i])) == Some(o.trace[i + 1].url)
  {
    MainBodyBounded(cmd, server);
    MainBodyHopsOnRedirect(cmd, server);
    LoopChains(MainBody(cmd, server),
      (n: nat, a: Attempt, next: string) => Redirection(server(n, a)) == Some(next), url, count, i);
  }

  /** A normal end follows at least one request. */
  lemma FollowEndsAfterRequest(cmd: CmdArgs, url: string, count: nat, server: Server)
    requires count <= MAX_ATTEMPTS
    requires Follow(cmd, url, count, server).result.Ok?
    ensures Follow(cmd, url, count, server).trace != []
  {
    LoopEndsAfterRequest(MainBody(cmd, server), server, url, count);
  }

  /** A normal end prints the response to the last request, number k, and that response is not followed. */
  lemma FollowEndsOnUnfollowedResponse(cmd: CmdArgs, url: string, count: nat, server: Server, k: nat)
    requires count <= MAX_ATTEMPTS
    requires Follow(cmd, url, count, server).result.Ok?
    requires k + 1 == |Follow(cmd, url, count, server).trace|
    ensures var o := Follow(cmd, url, count, server);
      EndsWith(server, count + k, o.trace[k], o.result.value)
  {
    LoopEnds(MainBody(cmd, server), server, url, count, k, count + k);
  }

  /** The abort comes after exactly 11 - count requests: 11 from the start. */
  lemma FollowAbortsAfterElevenRequests(cmd: CmdArgs, url: string, count: nat, server: Server)
    requires count <= MAX_ATTEMPTS
    requires Follow(cmd, url, count, server).result == Err(TooManyRedirects)
    ensures |Follow(cmd, url, count, server).trace| == MAX_ATTEMPTS - count
  {
    LoopAbortLength(MainBody(cmd, server), url, count);
  }

  /** The abort follows a redirect: the response to the last request, number k, was a redirect. */
  lemma FollowAbortsOnRedirect(cmd: CmdArgs, url: string, count: nat, server: Server, k: nat)
    requires count <= MAX_ATTEMPTS
    requires Follow(cmd, url, count, server).result == Err(TooManyRedirects)
    requires k + 1 == |Follow(cmd, url, count, server).trace|
    ensures Redirection(server(count + k, Follow(cmd, url, count, server).trace[k])).Some?
  {
    MainBodyBounded(cmd, server);
    MainBodyHopsOnRedirect(cmd, server);
    LoopAbortRedirected(MainBody(cmd, server), (n: nat, a: Attempt) => Redirection(server(n, a)).Some?, url, count, k, count + k);
  }

  /** The request of a URL parseURL accepts always fits its buffer, so the loop never fails building one. */
  lemma FollowNeverOverflowsRequest(cmd: CmdArgs, url: string, count: nat, server: Server)
    requires count <= MAX_ATTEMPTS
    ensures Follow(cmd, url, count, server).result != Err(BuildFailed)
  {
    forall u: string, n: nat
      ensures StepAt(cmd, u, n, server).Stop? ==> StepAt(cmd, u, n, server).outcome.result != Err(BuildFailed)
    {
      if ParsedUrlOf(u).Ok? {
        BuildNeverFails(ParsedUrlOf(u).value.host, ParsedUrlOf(u).value.path, cmd.params);
      }
    }
    LoopAvoids(MainBody(cmd, server), BuildFailed, url, count);
  }

  /**
   * A server that keeps redirecting to URLs parseURL accepts makes the
   * client issue 11 requests and then abort.
   */
  lemma EndlessRedirectsAbort(cmd: CmdArgs, url: string, server: Server)
    requires ParsedUrlOf(url).Ok?
    requires forall n: nat, a: Attempt :: Redirection(server(n, a)).Some? && ParsedUrlOf(Redirection(server(n, a)).value).Ok?
    ensures Follow(cmd, url, 0, server).result == Err(TooManyRedirects)
    ensures |Follow(cmd, url, 0, server).trace| == MAX_ATTEMPTS
  {
    forall u: string, n: nat | ParsedUrlOf(u).Ok?
      ensures StepAt(cmd, u, n, server).Hop? && ParsedUrlOf(StepAt(cmd, u, n, server).next).Ok?
    {
      var parsed := ParsedUrlOf(u).value;
      BuildNeverFails(parsed.host, parsed.path, cmd.params);
      var a := Attempt(u, parsed.host, parsed.port, parsed.path, BuildRequest(parsed.host, parsed.path, cmd.params).value);
      assert server(n, a).Received?;
    }
    LoopRedirectsForever(MainBody(cmd, server), (u: string) => ParsedUrlOf(u).Ok?, url, 0);
  }

  // ---- main ----

  /** The body's outcome once the URL is parsed and the request built, by what the connection did. */
  lemma StepOnExchange(cmd: CmdArgs, server: Server, count: nat, a: Attempt)
    requires Issued(cmd, a)
    ensures server(count, a).ConnectFailed? ==> StepAt(cmd, a.url, count, server) == Stop(Outcome([a], Err(ConnectError)))
    ensures server(count, a).SendFailed? ==> StepAt(cmd, a.url, count, server) == Stop(Outcome([a], Err(SendError)))
    ensures server(count, a).ReceiveFailed? ==> StepAt(cmd, a.url, count, server) == Stop(Outcome([a], Err(ReceiveError)))
    ensures server(count, a).Received? && Redirection(server(count, a)).Some? ==>
      StepAt(cmd, a.url, count, server) == Hop(a, Redirection(server(count, a)).value)
    ensures server(count, a).Received? && Redirection(server(count, a)).None? ==>
      StepAt(cmd, a.url, count, server) == Stop(Outcome([a], Ok(server(count, a).bytes)))
  {
  }

  /** What main decides from the status code and the Location it extracted. */
  lemma RedirectionFromParts(bytes: seq<char>, status: int, location: Option<string>)
    requires status == StatusCode(CString(bytes))
    requires location == if 300 <= status < 400 then Location(CString(bytes)) else None
    ensures Redirection(Received(bytes)) == if location.Some? && IsHttp(location.value) then location else None
  {
  }

  /** The URL a pass hops to fits currentURL whole. */
  lemma HopTargetFits(cmd: CmdArgs, url: string, count: nat, server: Server)
    requires StepAt(cmd, url, count, server).Hop?
    ensures Truncate(StepAt(cmd, url, count, server).next, URL_BUFFER_SIZE - 1) == StepAt(cmd, url, count, server).next
  {
    var s := StepAt(cmd, url, count, server);
    RedirectionIff(server(count, s.attempt), s.next);
  }

  /** Putting no attempts in front changes nothing. */
  lemma PrefixedNothing(o: Outcome)
    ensures Prefixed([], o) == o
  {
    assert [] + o.trace == o.trace;
  }

  /** Attempts put in front twice are put in front once, in order. */
  lemma PrefixedTwice(t: seq<Attempt>, u: seq<Attempt>, o: Outcome)
    ensures Prefixed(t, Prefixed(u, o)) == Prefixed(t + u, o)
  {
    assert t + (u + o.trace) == (t + u) + o.trace;
  }

  /**
   * What main does with a received response: extract the status code, look
   * for a Location only for a 3xx code, and keep it only when IsHttp holds.
   */
  method Decide(response: seq<char>) returns (next: Option<string>)
    ensures next == Redirection(Received(response))
  {
    var statusCode := ExtractStatusCode(response);
    var location: Option<string> := None;
    if 300 <= statusCode < 400 {
      location := ExtractLocationHeader(response);
    }
    RedirectionFromParts(response, statusCode, location);
    next := if location.Some? && IsHttp(location.value) then location else None;
  }

  /** `body` runs main's loop body: on every URL and counter it is the pass StepAt describes. */
  ghost predicate Runs(body: Body, cmd: CmdArgs, server: Server, url: string, count: nat) {
    body(url, count) == StepAt(cmd, url, count, server)
  }

  /** One pass of any body: stop with its outcome, or go round with the counter one higher. */
  lemma LoopPass(body: Body, url: string, count: nat)
    requires count <= MAX_REDIRECTS
    ensures body(url, count).Stop? ==> Loop(body, url, count) == body(url, count).outcome
    ensures body(url, count).Hop? ==> Loop(body, url, count) == Prefixed([body(url, count).attempt], Loop(body, body(url, count).next, count + 1))
  {
  }

  /**
   * One pass of main's loop body: parse currentURL, build the request, run
   * the connection, and decide whether to follow the response.
   */
  method Pass(cmd: CmdArgs, server: Server, ghost body: Body, currentURL: string, redirectCount: nat) returns (step: Step)
    requires forall u: string, n: nat :: Runs(body, cmd, server, u, n)
    ensures step == body(currentURL, redirectCount)
    ensures step.Hop? ==> Truncate(step.next, URL_BUFFER_SIZE - 1) == step.next
  {
    step := PassBody(cmd, currentURL, redirectCount, server);
    assert Runs(body, cmd, server, currentURL, redirectCount);
    if step.Hop? {
      HopTargetFits(cmd, currentURL, redirectCount, server);
    }
  }

  /** The statements of one pass, computing the step StepAt describes. */
  method PassBody(cmd: CmdArgs, currentURL: string, redirectCount: nat, server: Server) returns (step: Step)
    ensures step == StepAt(cmd, currentURL, redirectCount, server)
  {
    var parsed := ParseURL(currentURL);
    if parsed.Err? {
      return Stop(Outcome([], Err(BadUrl(parsed.error))));
    }
    var u := parsed.value;
    var built := BuildHTTPRequest(u.host, u.path, cmd.params);
    if built.Err? {
      return Stop(Outcome([], Err(BuildFailed)));
    }
    var attempt := Attempt(currentURL, u.host, u.port, u.path, built.value);
    StepOnExchange(cmd, server, redirectCount, attempt);
    var exchange := server(redirectCount, attempt);
    if !exchange.Received? {
      var failure := if exchange.ConnectFailed? then ConnectError else if exchange.SendFailed? then SendError else ReceiveError;
      return Stop(Outcome([attempt], Err(failure)));
    }
    var next := Decide(exchange.bytes);
    if next.Some? {
      step := Hop(attempt, next.value);
    } else {
      step := Stop(Outcome([attempt], Ok(exchange.bytes)));
    }
  }

  /**
   * The redirect loop of main, entered with `url` in currentURL and `count`
   * in redirectCount, proved against the loop over `body`, the pass it runs:
   * every pass either ends the run or copies the Location it follows into
   * currentURL with the counter one higher.
   */
  method Redirects(cmd: CmdArgs, server: Server, ghost body: Body, url: string, count: nat) returns (o: Outcome)
    requires count <= MAX_ATTEMPTS
    requires forall u: string, n: nat :: Runs(body, cmd, server, u, n)
    ensures o == Loop(body, url, count)
  {
    var redirectCount := count;
    var currentURL := url;
    var trace: seq<Attempt> := [];
    PrefixedNothing(Loop(body, url, count));
    while true
      invariant redirectCount <= MAX_ATTEMPTS
      invariant Prefixed(trace, Loop(body, currentURL, redirectCount)) == Loop(body, url, count)
      decreases MAX_ATTEMPTS - redirectCount
    {
      if redirectCount > MAX_REDIRECTS {
        return Prefixed(trace, Outcome([], Err(TooManyRedirects)));
      }
      LoopPass(body, currentURL, redirectCount);
      var step := Pass(cmd, server, body, currentURL, redirectCount);
      if step.Stop? {
        return Prefixed(trace, step.outcome);
      }
      PrefixedTwice(trace, [step.attempt], Loop(body, step.next, redirectCount + 1));
      currentURL := Truncate(step.next, URL_BUFFER_SIZE - 1);
      trace := trace + [step.attempt];
      redirectCount := redirectCount + 1;
    }
  }

  /**
   * main after the arguments are parsed: the URL from the command line is
   * cut to 1023 characters on its way into currentURL, and the loop starts
   * with no redirect counted.
   */
  method Run(cmd: CmdArgs, server: Server) returns (o: Outcome)
    ensures o == Follow(cmd, Truncate(cmd.url, URL_BUFFER_SIZE - 1), 0, server)
  {
    var currentURL := Truncate(cmd.url, URL_BUFFER_SIZE - 1);
    forall u: string, n: nat
      ensures Runs(MainBody(cmd, server), cmd, server, u, n)
    {
    }
    o := Redirects(cmd, server, MainBody(cmd, server), currentURL, 0);
  }

  /**
   * The whole of main: parseArguments, whose usage errors end the program
   * before any connection, then the redirect loop on the parsed command line.
   */
  method Client(argv: seq<string>, server: Server) returns (r: Result<Outcome, UsageError>)
    ensures ParseArgs(argv).Err? ==> r == Err(ParseArgs(argv).error)
    ensures ParseArgs(argv).Ok? ==>
      var cmd := ParseArgs(argv).value;
      r == Ok(Follow(cmd, Truncate(cmd.url, URL_BUFFER_SIZE - 1), 0, server))
  {
    var parsed := ParseArguments(argv);
    if parsed.Err? {
      return Err(parsed.error);
    }
    var o := Run(parsed.value, server);
    r := Ok(o);
  }
}
