/**
 * buildHTTPRequest: the query string is appended to the path inside the
 * 1200-byte finalPath buffer, then the request line and Host header are
 * formatted into the 2048-byte request buffer.
 */
module Request {
  import opened Wrappers
  import opened LibC

  const REQUEST_BUFFER_SIZE := 2048
  /** char finalPath[1200]: at most 1199 characters. */
  const FINAL_PATH_SIZE := 1200
  const FINAL_PATH_MAX := FINAL_PATH_SIZE - 1

  /** snprintf reported the request would not fit the request buffer. */
  datatype BuildError = RequestTooLarge

  /** strncat(dst, src, sizeof(finalPath) - strlen(dst) - 1) */
  function Cat(dst: string, src: string): (r: string)
    requires |dst| <= FINAL_PATH_MAX
    ensures |r| <= FINAL_PATH_MAX
  {
    dst + Truncate(src, FINAL_PATH_MAX - |dst|)
  }

  /** Appending to a truncated string is truncating the concatenation. */
  lemma CatTruncated(x: string, y: string)
    ensures Cat(Truncate(x, FINAL_PATH_MAX), y) == Truncate(x + y, FINAL_PATH_MAX)
  {
    TruncateAppend(x, y, FINAL_PATH_MAX);
  }

  /** The parameters joined by '&', in order. */
  function Join(ps: seq<string>): string {
    if ps == [] then ""
    else if |ps| == 1 then ps[0]
    else Join(ps[..|ps| - 1]) + "&" + ps[|ps| - 1]
  }

  /** '?' opens the query, or '&' extends one the path already has. */
  function Separator(path: string): string {
    if '?' in path then "&" else "?"
  }

  /** The contents of finalPath: the path, then the separator and the joined parameters, within 1199 characters. */
  function FinalPath(path: string, params: seq<string>): (r: string)
    ensures |r| <= FINAL_PATH_MAX
    ensures Truncate(path, FINAL_PATH_MAX) <= r
  {
    var base := Truncate(path, FINAL_PATH_MAX);
    if params == [] then base
    else Truncate(base + Separator(base) + Join(params), FINAL_PATH_MAX)
  }

  /** The format "GET %s HTTP/1.1\r\nHost: %s\r\n\r\n". */
  function RequestText(finalPath: string, host: string): string {
    "GET " + finalPath + " HTTP/1.1\r\nHost: " + host + "\r\n\r\n"
  }

  /** buildHTTPRequest as a function: the request text, or the error when it needs 2048 bytes or more. */
  function BuildRequest(host: string, path: string, params: seq<string>): (r: Result<string, BuildError>)
    ensures r.Ok? ==> |r.value| < REQUEST_BUFFER_SIZE
  {
    var text := RequestText(FinalPath(path, params), host);
    if |text| >= REQUEST_BUFFER_SIZE then Err(RequestTooLarge) else Ok(text)
  }

  /** The parameters joined so far after `i` steps of the append loop. */
  function JoinedPrefix(params: seq<string>, i: nat): string
    requires i <= |params|
  {
    if i == 0 then "" else Join(params[..i])
  }

  /** One step of the append loop keeps finalPath equal to the truncated concatenation. */
  lemma AppendStep(head: string, params: seq<string>, i: nat, finalPath: string)
    requires i < |params|
    requires finalPath == Truncate(head + JoinedPrefix(params, i), FINAL_PATH_MAX)
    ensures var next := if i > 0 then Cat(Cat(finalPath, "&"), params[i]) else Cat(finalPath, params[i]);
      next == Truncate(head + JoinedPrefix(params, i + 1), FINAL_PATH_MAX)
  {
    var joined := JoinedPrefix(params, i);
    JoinedPrefixStep(params, i);
    if i > 0 {
      CatTruncated(head + joined, "&");
      CatTruncated(head + joined + "&", params[i]);
      assert head + joined + "&" + params[i] == head + (joined + "&" + params[i]);
    } else {
      assert head + "" == head;
      CatTruncated(head, params[i]);
    }
  }

  /** The loop's next round appends `&` and the parameter, or just the parameter in the first round. */
  lemma JoinedPrefixStep(params: seq<string>, i: nat)
    requires i < |params|
    ensures i > 0 ==> JoinedPrefix(params, i + 1) == JoinedPrefix(params, i) + "&" + params[i]
    ensures i == 0 ==> JoinedPrefix(params, i + 1) == params[0]
  {
    assert params[..i + 1][..i] == params[..i];
    assert params[..i + 1][i] == params[i];
    if i == 0 {
      assert params[..1] == [params[0]];
    }
  }

  /** buildHTTPRequest: finalPath grown by repeated strncat, then formatted. */
  method BuildHTTPRequest(host: string, path: string, params: seq<string>) returns (r: Result<string, BuildError>)
    ensures r == BuildRequest(host, path, params)
  {
    var finalPath := Truncate(path, FINAL_PATH_MAX);
    if |params| > 0 {
      ghost var head := finalPath + Separator(finalPath);
      CatTruncated(finalPath, Separator(finalPath));
      if '?' !in finalPath {
        finalPath := Cat(finalPath, "?");
      } else {
        finalPath := Cat(finalPath, "&");
      }
      assert head + "" == head;
      for i := 0 to |params|
        invariant |finalPath| <= FINAL_PATH_MAX
        invariant finalPath == Truncate(head + JoinedPrefix(params, i), FINAL_PATH_MAX)
      {
        AppendStep(head, params, i, finalPath);
        if i > 0 {
          finalPath := Cat(finalPath, "&");
        }
        finalPath := Cat(finalPath, params[i]);
      }
      assert params[..|params|] == params;
    }
    var text := "GET " + finalPath + " HTTP/1.1\r\nHost: " + host + "\r\n\r\n";
    if |text| >= REQUEST_BUFFER_SIZE {
      return Err(RequestTooLarge);
    }
    return Ok(text);
  }

  /** The request is refused exactly when final path and host together reach 2023 characters. */
  lemma BuildFailsIff(host: string, path: string, params: seq<string>)
    ensures BuildRequest(host, path, params).Err? <==> |FinalPath(path, params)| + |host| >= REQUEST_BUFFER_SIZE - 25
  {
  }

  /** A host shorter than 256 characters (as parseURL guarantees) leaves the request always buildable. */
  lemma BuildNeverFails(host: string, path: string, params: seq<string>)
    requires |host| < 256
    ensures BuildRequest(host, path, params) == Ok(RequestText(FinalPath(path, params), host))
    ensures |RequestText(FinalPath(path, params), host)| < REQUEST_BUFFER_SIZE
  {
    BuildFailsIff(host, path, params);
  }

  /** When nothing is cut off, the final path is the path, the separator and the joined parameters. */
  lemma FinalPathUntruncated(path: string, params: seq<string>)
    requires params != []
    requires |path| + 1 + |Join(params)| <= FINAL_PATH_MAX
    ensures FinalPath(path, params) == path + Separator(path) + Join(params)
  {
  }

  /** Without parameters the path is sent as it is, within 1199 characters. */
  lemma FinalPathWithoutParams(path: string)
    ensures FinalPath(path, []) == Truncate(path, FINAL_PATH_MAX)
  {
  }

  /** The joined parameters list each token in order, split by single '&' characters. */
  lemma {:induction false} JoinAppend(ps: seq<string>, qs: seq<string>)
    requires ps != [] && qs != []
    ensures Join(ps + qs) == Join(ps) + "&" + Join(qs)
    decreases |qs|
  {
    if |qs| == 1 {
      assert (ps + qs)[..|ps + qs| - 1] == ps;
    } else {
      var q := qs[..|qs| - 1];
      JoinAppend(ps, q);
      assert (ps + qs)[..|ps + qs| - 1] == ps + q;
      assert (ps + qs)[|ps + qs| - 1] == qs[|qs| - 1];
    }
  }

  /** The two query-string examples: a new query, and one the path already opened. */
  lemma QueryExamples()
    ensures FinalPath("/search", ["q=cat", "n=2"]) == "/search?q=cat&n=2"
    ensures FinalPath("/x?a=1", ["b=2"]) == "/x?a=1&b=2"
  {
    assert ["q=cat", "n=2"][..1] == ["q=cat"];
    assert '?' !in "/search";
    assert "/x?a=1"[2] == '?';
  }
}
