/**
 * Command-line handling: `client [-r n <pr1=value1 ...>] <URL>`.  The walk
 * over argv either yields the URL and the ordered `name=value` parameters or
 * a usage error (the C code prints the usage line and exits).
 */
module Args {
  import opened Wrappers
  import opened LibC
  import opened Numbers

  /** The CmdArgs record: the URL token and the parameter tokens in input order. */
  datatype CmdArgs = CmdArgs(url: string, params: seq<string>)

  datatype UsageError =
    | UnknownFlag(flag: string)
    | MissingCount
    | InvalidCount(token: string)
    | TooFewParams
    | NotNameValue(token: string)
    | MultipleUrls
    | NoUrl

  /** argv[i][0] == '-' (an empty token is not a flag: its first character is the NUL). */
  predicate IsFlag(t: string) {
    |t| > 0 && t[0] == '-'
  }

  /** strchr(t, '=') != NULL */
  predicate IsNameValue(t: string) {
    '=' in t
  }

  /** The `n` parameter tokens at the front of `args`, appended to `acc`, or the first complaint. */
  function TakeParams(args: seq<string>, n: nat, acc: seq<string>): (r: Result<seq<string>, UsageError>)
    ensures r.Ok? <==> n <= |args| && forall k :: 0 <= k < n ==> IsNameValue(args[k])
    ensures r.Ok? ==> r.value == acc + args[..n]
    decreases n
  {
    if n == 0 then Ok(acc)
    else if args == [] then Err(TooFewParams)
    else if !IsNameValue(args[0]) then Err(NotNameValue(args[0]))
    else
      var r := TakeParams(args[1..], n - 1, acc + [args[0]]);
      assert r.Ok? ==> args[..n] == [args[0]] + args[1..][..n - 1];
      assert forall k :: 1 <= k < n && k < |args| ==> args[k] == args[1..][k - 1];
      r
  }

  /**
   * The argument walk from some position on, given the URL and parameters
   * collected so far.  A later `-r` block replaces the parameters of an
   * earlier one, as the C code overwrites cmd->params.
   */
  function Walk(args: seq<string>, url: Option<string>, params: seq<string>): Result<CmdArgs, UsageError>
    decreases |args|
  {
    if args == [] then
      if url.None? then Err(NoUrl) else Ok(CmdArgs(url.value, params))
    else if IsFlag(args[0]) then
      if args[0] != "-r" then Err(UnknownFlag(args[0]))
      else if |args| == 1 then Err(MissingCount)
      else if !IsPositiveNumberUnder16Bit(args[1]) then Err(InvalidCount(args[1]))
      else
        var n: nat := Strtol(args[1]).value;
        match TakeParams(args[2..], n, [])
        case Err(e) => Err(e)
        case Ok(ps) => Walk(args[2 + n..], url, ps)
    else if url.Some? then Err(MultipleUrls)
    else Walk(args[1..], Some(args[0]), params)
  }

  /** parseArguments as a function of argv (argv[0] is the program name). */
  function ParseArgs(argv: seq<string>): Result<CmdArgs, UsageError> {
    Walk(if argv == [] then [] else argv[1..], None, [])
  }

  /** parseArguments: the index walk over argv, filling url and params. */
  method ParseArguments(argv: seq<string>) returns (r: Result<CmdArgs, UsageError>)
    ensures r == ParseArgs(argv)
  {
    var url: Option<string> := None;
    var params: seq<string> := [];
    var i := 1;
    while i < |argv|
      invariant 1 <= i && (argv != [] ==> i <= |argv|)
      invariant argv != [] ==> Walk(argv[i..], url, params) == ParseArgs(argv)
      invariant argv == [] ==> url.None?
      decreases |argv| - i
    {
      ghost var here := argv[i..];
      assert here[0] == argv[i];
      if IsFlag(argv[i]) {
        if argv[i] != "-r" {
          return Err(UnknownFlag(argv[i]));
        }
        i := i + 1;
        if i >= |argv| {
          return Err(MissingCount);
        }
        assert here[1] == argv[i];
        if !IsPositiveNumberUnder16Bit(argv[i]) {
          return Err(InvalidCount(argv[i]));
        }
        var n: nat := Strtol(argv[i]).value;
        i := i + 1;
        assert here[2..] == argv[i..];
        var taken := CopyParams(argv, i, n);
        if taken.Err? {
          return Err(taken.error);
        }
        var ps := taken.value;
        i := i + n;
        assert here[2 + n..] == argv[i..];
        params := ps;
      } else {
        if url.Some? {
          return Err(MultipleUrls);
        }
        assert here[1..] == argv[i + 1..];
        url := Some(argv[i]);
        i := i + 1;
      }
    }
    assert argv != [] ==> argv[i..] == [];
    if url.None? {
      return Err(NoUrl);
    }
    return Ok(CmdArgs(url.value, params));
  }

  /** The copy loop of a `-r` block: the n tokens from index `start` on, each of them `name=value`. */
  method CopyParams(argv: seq<string>, start: nat, n: nat) returns (r: Result<seq<string>, UsageError>)
    requires start <= |argv|
    ensures r == TakeParams(argv[start..], n, [])
  {
    var ps: seq<string> := [];
    var i := start;
    var j := 0;
    while j < n
      invariant 0 <= j <= n && i == start + j && i <= |argv|
      invariant TakeParams(argv[start..], n, []) == TakeParams(argv[i..], n - j, ps)
    {
      if i >= |argv| {
        assert argv[i..] == [];
        return Err(TooFewParams);
      }
      assert argv[i..][0] == argv[i];
      if !IsNameValue(argv[i]) {
        return Err(NotNameValue(argv[i]));
      }
      assert argv[i..][1..] == argv[i + 1..];
      ps := ps + [argv[i]];
      i := i + 1;
      j := j + 1;
    }
    return Ok(ps);
  }

  /**
   * What a successful walk from `args` yields: a non-flag URL (the one already
   * collected, or a token of `args`) and either the parameters already
   * collected or a `-r` block of `args`.
   */
  predicate SoundWalk(r: Result<CmdArgs, UsageError>, args: seq<string>, url: Option<string>, params: seq<string>) {
    r.Ok? ==>
      && !IsFlag(r.value.url)
      && (url.Some? ==> r.value.url == url.value)
      && (url.None? ==> r.value.url in args)
      && (r.value.params == params || IsParamBlockOf(r.value.params, args))
  }

  lemma {:induction false} WalkSound(args: seq<string>, url: Option<string>, params: seq<string>)
    requires url.Some? ==> !IsFlag(url.value)
    ensures SoundWalk(Walk(args, url, params), args, url, params)
    decreases |args|
  {
    if args != [] {
      if IsFlag(args[0]) {
        if args[0] == "-r" && |args| > 1 && IsPositiveNumberUnder16Bit(args[1]) {
          var n: nat := Strtol(args[1]).value;
          var t := TakeParams(args[2..], n, []);
          if t.Ok? {
            WalkSound(args[2 + n..], url, t.value);
            BlockSound(args, url, params, n, t.value);
          }
        }
      } else if url.None? {
        WalkSound(args[1..], Some(args[0]), params);
        UrlSound(args, params);
      }
    }
  }

  /** The `-r` step keeps a sound walk sound: the block it takes stands at index 2. */
  lemma BlockSound(args: seq<string>, url: Option<string>, params: seq<string>, n: nat, ps: seq<string>)
    requires |args| > 1 && args[0] == "-r" && IsPositiveNumberUnder16Bit(args[1])
    requires n == Strtol(args[1]).value && TakeParams(args[2..], n, []) == Ok(ps)
    requires SoundWalk(Walk(args[2 + n..], url, ps), args[2 + n..], url, ps)
    ensures SoundWalk(Walk(args, url, params), args, url, params)
  {
    var rest := args[2 + n..];
    var r := Walk(rest, url, ps);
    assert Walk(args, url, params) == r;
    if r.Ok? {
      if url.None? {
        TokenOfRest(args, 2 + n, r.value.url);
      }
      if r.value.params == ps {
        BlockAtStart(args, n, ps);
      } else {
        ParamBlockShift(r.value.params, rest, args, 2 + n);
      }
    }
  }

  /** A token of a suffix of `args` is a token of `args`. */
  lemma TokenOfRest(args: seq<string>, d: nat, t: string)
    requires d <= |args| && t in args[d..]
    ensures t in args
  {
    var k :| 0 <= k < |args[d..]| && args[d..][k] == t;
    assert args[d + k] == t;
  }

  /** The parameters a leading `-r` block takes stand at index 2, after `-r` and their count. */
  lemma BlockAtStart(args: seq<string>, n: nat, ps: seq<string>)
    requires |args| > 1 && args[0] == "-r" && IsPositiveNumberUnder16Bit(args[1])
    requires n == Strtol(args[1]).value && TakeParams(args[2..], n, []) == Ok(ps)
    ensures ParamBlockAt(ps, args, 2)
  {
    assert args[2..][..n] == args[2..2 + n];
  }

  /** Collecting the URL keeps a sound walk sound: the URL is the first token. */
  lemma UrlSound(args: seq<string>, params: seq<string>)
    requires args != [] && !IsFlag(args[0])
    requires SoundWalk(Walk(args[1..], Some(args[0]), params), args[1..], Some(args[0]), params)
    ensures SoundWalk(Walk(args, None, params), args, None, params)
  {
    var r := Walk(args[1..], Some(args[0]), params);
    assert Walk(args, None, params) == r;
    if r.Ok? && r.value.params != params {
      ParamBlockShift(r.value.params, args[1..], args, 1);
    }
  }

  /**
   * `ps` is a `-r` block whose parameters start at index `k` of `args`:
   * `-r` and a count whose value is |ps| come just before, then 1 to 65535
   * `name=value` tokens.
   */
  predicate ParamBlockAt(ps: seq<string>, args: seq<string>, k: nat) {
    && 0 < |ps| < 65536
    && 2 <= k && k + |ps| <= |args|
    && args[k - 2] == "-r"
    && IsPositiveNumberUnder16Bit(args[k - 1]) && Strtol(args[k - 1]).value == |ps|
    && args[k..k + |ps|] == ps
    && forall i :: 0 <= i < |ps| ==> IsNameValue(ps[i])
  }

  predicate IsParamBlockOf(ps: seq<string>, args: seq<string>) {
    exists k :: 0 <= k <= |args| && ParamBlockAt(ps, args, k)
  }

  lemma ParamBlockShift(ps: seq<string>, rest: seq<string>, args: seq<string>, d: nat)
    requires d <= |args| && rest == args[d..]
    requires IsParamBlockOf(ps, rest)
    ensures IsParamBlockOf(ps, args)
  {
    var k :| 0 <= k <= |rest| && ParamBlockAt(ps, rest, k);
    assert args[d + k..d + k + |ps|] == rest[k..k + |ps|];
    assert args[d + k - 2] == rest[k - 2] && args[d + k - 1] == rest[k - 1];
    assert ParamBlockAt(ps, args, d + k);
  }

  /** A `name=value` token that does not follow `-r` and a count is no parameter block. */
  lemma StrayParameterNotABlock(u: string, p: string)
    ensures !IsParamBlockOf([p], [u, p])
  {
  }

  /**
   * A piece of argv as parseArguments reads it: a URL token, or a `-r`
   * block made of `-r`, its count and the parameters the count announces.
   */
  datatype Segment = UrlToken(url: string) | Block(count: string, params: seq<string>)

  /** The argv tokens a segment stands for. */
  function Tokens(g: Segment): seq<string> {
    match g
    case UrlToken(u) => [u]
    case Block(c, ps) => ["-r", c] + ps
  }

  function Flatten(segs: seq<Segment>): seq<string> {
    if segs == [] then [] else Tokens(segs[0]) + Flatten(segs[1..])
  }

  /** A URL token is no flag; a block's count is valid, equals the number of parameters, and each is `name=value`. */
  predicate WellFormedSegment(g: Segment) {
    match g
    case UrlToken(u) => !IsFlag(u)
    case Block(c, ps) =>
      IsPositiveNumberUnder16Bit(c) && Strtol(c).value == |ps|
      && forall k :: 0 <= k < |ps| ==> IsNameValue(ps[k])
  }

  /** `segs` cuts `args` into well-formed segments. */
  predicate Segmentation(segs: seq<Segment>, args: seq<string>) {
    Flatten(segs) == args && forall i :: 0 <= i < |segs| ==> WellFormedSegment(segs[i])
  }

  /** The URL tokens among the segments, in order. */
  function Urls(segs: seq<Segment>): seq<string> {
    if segs == [] then []
    else (if segs[0].UrlToken? then [segs[0].url] else []) + Urls(segs[1..])
  }

  /** The parameters of the last block, or `params` when there is no block. */
  function LastParams(segs: seq<Segment>, params: seq<string>): seq<string> {
    if segs == [] then params
    else LastParams(segs[1..], if segs[0].Block? then segs[0].params else params)
  }

  /**
   * `segs` explains the walk result `r` from `args`: they cut `args`, their
   * URL tokens are the URL taken (none when one was collected before), and
   * the last block's parameters are the result's.
   */
  predicate SegmentsOfWalk(segs: seq<Segment>, args: seq<string>, url: Option<string>, params: seq<string>, r: CmdArgs) {
    && Segmentation(segs, args)
    && Urls(segs) == (if url.None? then [r.url] else [])
    && (url.Some? ==> r.url == url.value)
    && r.params == LastParams(segs, params)
  }

  /** A successful walk cuts its tokens into segments: the URLs it takes and the blocks whose parameters it keeps the last of. */
  lemma {:induction false} WalkSegments(args: seq<string>, url: Option<string>, params: seq<string>) returns (segs: seq<Segment>)
    requires Walk(args, url, params).Ok?
    ensures SegmentsOfWalk(segs, args, url, params, Walk(args, url, params).value)
    decreases |args|
  {
    if args == [] {
      segs := [];
    } else if IsFlag(args[0]) {
      var n: nat := Strtol(args[1]).value;
      var ps := TakeParams(args[2..], n, []).value;
      var tail := WalkSegments(args[2 + n..], url, ps);
      segs := BlockStep(args, url, params, n, ps, tail);
    } else {
      var tail := WalkSegments(args[1..], Some(args[0]), params);
      segs := UrlStep(args, params, tail);
    }
  }

  /** The `-r` step: the block in front of the segments of the rest explains the walk. */
  lemma BlockStep(args: seq<string>, url: Option<string>, params: seq<string>, n: nat, ps: seq<string>, tail: seq<Segment>)
    returns (segs: seq<Segment>)
    requires |args| > 1 && args[0] == "-r" && IsPositiveNumberUnder16Bit(args[1])
    requires n == Strtol(args[1]).value && TakeParams(args[2..], n, []) == Ok(ps)
    requires Walk(args[2 + n..], url, ps).Ok?
    requires SegmentsOfWalk(tail, args[2 + n..], url, ps, Walk(args[2 + n..], url, ps).value)
    ensures Walk(args, url, params) == Walk(args[2 + n..], url, ps)
    ensures SegmentsOfWalk(segs, args, url, params, Walk(args, url, params).value)
  {
    var g := Block(args[1], ps);
    BlockTokens(args, n, ps);
    assert WellFormedSegment(g);
    segs := ConsSegment(g, tail, args[2 + n..]);
  }

  /** The URL step: the URL token in front of the segments of the rest explains the walk. */
  lemma UrlStep(args: seq<string>, params: seq<string>, tail: seq<Segment>) returns (segs: seq<Segment>)
    requires args != [] && !IsFlag(args[0])
    requires Walk(args[1..], Some(args[0]), params).Ok?
    requires SegmentsOfWalk(tail, args[1..], Some(args[0]), params, Walk(args[1..], Some(args[0]), params).value)
    ensures Walk(args, None, params) == Walk(args[1..], Some(args[0]), params)
    ensures SegmentsOfWalk(segs, args, None, params, Walk(args, None, params).value)
  {
    var g := UrlToken(args[0]);
    assert Tokens(g) + args[1..] == args;
    segs := ConsSegment(g, tail, args[1..]);
  }

  /** The parameters a `-r` step takes are `name=value` tokens and stand right after `-r` and the count. */
  lemma BlockTokens(args: seq<string>, n: nat, ps: seq<string>)
    requires |args| > 1 && args[0] == "-r" && TakeParams(args[2..], n, []) == Ok(ps)
    ensures |ps| == n && forall k :: 0 <= k < n ==> IsNameValue(ps[k])
    ensures ["-r", args[1]] + ps + args[2 + n..] == args
  {
    var t := args[2..];
    assert ps == t[..n];
    assert t == t[..n] + t[n..];
    assert t[n..] == args[2 + n..];
    assert args == ["-r", args[1]] + t;
  }

  /** A well-formed segment in front of a segmentation of `rest` cuts its tokens followed by `rest`. */
  lemma ConsSegment(g: Segment, tail: seq<Segment>, rest: seq<string>) returns (segs: seq<Segment>)
    requires WellFormedSegment(g) && Segmentation(tail, rest)
    ensures segs == [g] + tail
    ensures Segmentation(segs, Tokens(g) + rest)
    ensures Urls(segs) == (if g.UrlToken? then [g.url] else []) + Urls(tail)
    ensures forall params :: LastParams(segs, params) == LastParams(tail, if g.Block? then g.params else params)
  {
    segs := [g] + tail;
    assert segs[0] == g && segs[1..] == tail;
    assert forall i :: 0 < i < |segs| ==> segs[i] == tail[i - 1];
  }

  /** Of a segmented argv the first token is a URL token (no flag) or `-r`. */
  lemma FirstTokenOfSegments(segs: seq<Segment>, args: seq<string>)
    ensures Segmentation(segs, args) && args != [] ==> !IsFlag(args[0]) || args[0] == "-r"
  {
    if Segmentation(segs, args) && args != [] {
      assert segs != [];
      assert args[0] == Tokens(segs[0])[0];
      assert WellFormedSegment(segs[0]);
    }
  }

  /** Walking well-formed segments takes their URL and keeps the last block's parameters. */
  lemma {:induction false} WalkFlatten(segs: seq<Segment>, url: Option<string>, params: seq<string>)
    requires forall i :: 0 <= i < |segs| ==> WellFormedSegment(segs[i])
    requires url.Some? ==> Urls(segs) == []
    requires url.None? ==> |Urls(segs)| == 1
    ensures Walk(Flatten(segs), url, params) ==
      Ok(CmdArgs(if url.Some? then url.value else Urls(segs)[0], LastParams(segs, params)))
    decreases |segs|
  {
    if segs != [] {
      var rest := segs[1..];
      assert forall i :: 0 <= i < |rest| ==> WellFormedSegment(rest[i]) by {
        assert forall i :: 0 <= i < |rest| ==> rest[i] == segs[i + 1];
      }
      match segs[0]
      case Block(c, ps) =>
        assert WellFormedSegment(segs[0]);
        BlockWalked(c, ps, Flatten(rest), url, params);
        WalkFlatten(rest, url, ps);
      case UrlToken(u) =>
        assert WellFormedSegment(segs[0]);
        UrlWalked(u, Flatten(rest), params);
        WalkFlatten(rest, Some(u), params);
    }
  }

  /**
   * parseArguments succeeds only when argv[1..] cuts into well-formed
   * segments: exactly one URL token, which is the URL, and `-r` blocks of
   * 1 to 65535 `name=value` tokens, the last of which gives the parameters.
   * Every flag is therefore `-r` with a valid count and a full block.
   */
  lemma ParsedArgsWellFormed(argv: seq<string>)
    requires ParseArgs(argv).Ok?
    ensures var cmd := ParseArgs(argv).value;
      && argv != []
      && cmd.url in argv[1..] && !IsFlag(cmd.url)
      && (cmd.params == [] || IsParamBlockOf(cmd.params, argv[1..]))
      && exists segs :: Segmentation(segs, argv[1..]) && Urls(segs) == [cmd.url] && cmd.params == LastParams(segs, [])
  {
    WalkSound(if argv == [] then [] else argv[1..], None, []);
    var segs := WalkSegments(argv[1..], None, []);
    assert SegmentsOfWalk(segs, argv[1..], None, [], ParseArgs(argv).value);
  }

  /** Conversely, every argv cut into well-formed segments with exactly one URL token is accepted. */
  lemma SegmentsParsed(prog: string, segs: seq<Segment>)
    requires forall i :: 0 <= i < |segs| ==> WellFormedSegment(segs[i])
    requires |Urls(segs)| == 1
    ensures ParseArgs([prog] + Flatten(segs)) == Ok(CmdArgs(Urls(segs)[0], LastParams(segs, [])))
  {
    assert ([prog] + Flatten(segs))[1..] == Flatten(segs);
    WalkFlatten(segs, None, []);
  }

  /** An unknown flag, as in `["p", "-x", "u"]`, admits no segmentation, and the walk refuses it. */
  lemma UnknownFlagNoSegments(prog: string, f: string, rest: seq<string>, segs: seq<Segment>)
    requires IsFlag(f) && f != "-r"
    ensures !Segmentation(segs, [f] + rest)
    ensures ParseArgs([prog, f] + rest) == Err(UnknownFlag(f))
  {
    FirstTokenOfSegments(segs, [f] + rest);
    assert ([prog, f] + rest)[1..] == [f] + rest;
  }

  /** A block of `name=value` tokens followed by anything is taken whole. */
  lemma TakeWholeBlock(ps: seq<string>, rest: seq<string>)
    requires forall k :: 0 <= k < |ps| ==> IsNameValue(ps[k])
    ensures TakeParams(ps + rest, |ps|, []).Ok?
    ensures TakeParams(ps + rest, |ps|, []).value == ps
  {
    assert forall k :: 0 <= k < |ps| ==> IsNameValue((ps + rest)[k]);
    var t := TakeParams(ps + rest, |ps|, []);
    assert t.Ok?;
    assert t.value == [] + (ps + rest)[..|ps|];
    assert (ps + rest)[..|ps|] == ps;
  }

  /** A well-formed `-r` block is walked over whole, its parameters replacing those collected so far. */
  lemma BlockWalked(count: string, ps: seq<string>, rest: seq<string>, url: Option<string>, before: seq<string>)
    requires IsPositiveNumberUnder16Bit(count) && Strtol(count).value == |ps|
    requires forall k :: 0 <= k < |ps| ==> IsNameValue(ps[k])
    ensures Walk(["-r", count] + ps + rest, url, before) == Walk(rest, url, ps)
  {
    var args := ["-r", count] + ps + rest;
    assert args[0] == "-r" && args[1] == count;
    assert args[2..] == ps + rest;
    TakeWholeBlock(ps, rest);
    assert args[2 + |ps|..] == rest;
  }

  /** A URL token is collected when no URL was seen before. */
  lemma UrlWalked(u: string, rest: seq<string>, params: seq<string>)
    requires !IsFlag(u)
    ensures Walk([u] + rest, None, params) == Walk(rest, Some(u), params)
  {
    assert ([u] + rest)[1..] == rest;
  }

  /** The usage line's form `-r n <params> <URL>` is accepted. */
  lemma ParamsThenUrlAccepted(prog: string, count: string, ps: seq<string>, u: string)
    requires IsPositiveNumberUnder16Bit(count) && Strtol(count).value == |ps|
    requires forall k :: 0 <= k < |ps| ==> IsNameValue(ps[k])
    requires !IsFlag(u)
    ensures ParseArgs([prog, "-r", count] + ps + [u]) == Ok(CmdArgs(u, ps))
  {
    var args := ["-r", count] + ps + [u];
    assert ([prog, "-r", count] + ps + [u])[1..] == args;
    BlockWalked(count, ps, [u], None, []);
    UrlWalked(u, [], ps);
    assert [u] + [] == [u];
  }

  /** The URL may come first: `<URL> -r n <params>` is accepted too. */
  lemma UrlThenParamsAccepted(prog: string, count: string, ps: seq<string>, u: string)
    requires IsPositiveNumberUnder16Bit(count) && Strtol(count).value == |ps|
    requires forall k :: 0 <= k < |ps| ==> IsNameValue(ps[k])
    requires !IsFlag(u)
    ensures ParseArgs([prog, u, "-r", count] + ps) == Ok(CmdArgs(u, ps))
  {
    var block := ["-r", count] + ps;
    assert ([prog, u, "-r", count] + ps)[1..] == [u] + block;
    UrlWalked(u, block, []);
    assert block + [] == block;
    BlockWalked(count, ps, [], Some(u), []);
  }

  /** Without `-r` the parameter list is empty. */
  lemma UrlOnlyAccepted(prog: string, u: string)
    requires !IsFlag(u)
    ensures ParseArgs([prog, u]) == Ok(CmdArgs(u, []))
  {
    assert [prog, u][1..] == [u];
    assert [u][1..] == [];
    assert Walk([u], None, []) == Walk([], Some(u), []);
  }

  /** Two URL-like tokens are a usage error. */
  lemma TwoUrlsRefused(prog: string, u1: string, u2: string)
    requires !IsFlag(u1) && !IsFlag(u2)
    ensures ParseArgs([prog, u1, u2]) == Err(MultipleUrls)
  {
    assert [prog, u1, u2][1..] == [u1, u2];
    assert [u1, u2][1..] == [u2];
    assert Walk([u1, u2], None, []) == Walk([u2], Some(u1), []);
  }

  /** A second `-r` block is accepted and its parameters replace the first block's. */
  lemma LaterBlockWins(prog: string, c1: string, ps1: seq<string>, c2: string, ps2: seq<string>, u: string)
    requires IsPositiveNumberUnder16Bit(c1) && Strtol(c1).value == |ps1|
    requires IsPositiveNumberUnder16Bit(c2) && Strtol(c2).value == |ps2|
    requires forall k :: 0 <= k < |ps1| ==> IsNameValue(ps1[k])
    requires forall k :: 0 <= k < |ps2| ==> IsNameValue(ps2[k])
    requires !IsFlag(u)
    ensures ParseArgs([prog, "-r", c1] + ps1 + ["-r", c2] + ps2 + [u]) == Ok(CmdArgs(u, ps2))
  {
    var second := ["-r", c2] + ps2 + [u];
    var args := ["-r", c1] + ps1 + second;
    assert ([prog, "-r", c1] + ps1 + ["-r", c2] + ps2 + [u])[1..] == args;
    BlockWalked(c1, ps1, second, None, []);
    BlockWalked(c2, ps2, [u], None, ps1);
    UrlWalked(u, [], ps2);
    assert [u] + [] == [u];
  }
}
