/**
 * Response inspection: extractStatusCode reads the code after the first
 * "HTTP/" and extractLocationHeader copies the value of the first
 * case-insensitive "location:".  Both work on the response as a C string,
 * that is on the bytes before the first NUL.
 */
module Inspect {
  import opened Wrappers
  import opened LibC

  const STATUS_MARK := "HTTP/"
  const LOCATION_NEEDLE := "location:"
  /** char locationURL[1024]: at most 1023 characters are copied. */
  const LOCATION_URL_SIZE := 1024
  /** char codeBuf[4]: at most three characters of the code are read. */
  const CODE_DIGITS := 3

  /** The first index at or after `i` that does not hold a space (the `while (*p == ' ')` loop). */
  function SpacesFrom(s: string, i: nat): (k: nat)
    requires i <= |s|
    ensures i <= k <= |s|
    ensures forall j :: i <= j < k ==> s[j] == ' '
    ensures k < |s| ==> s[k] != ' '
    decreases |s| - i
  {
    if i < |s| && s[i] == ' ' then SpacesFrom(s, i + 1) else i
  }

  /** extractStatusCode as a function of the C string: the code, or -1 when none is found. */
  function StatusCode(s: string): int {
    if s == [] then -1
    else match Find(s, STATUS_MARK, 0)
      case None => -1
      case Some(k) =>
        match IndexOf(s, ' ', k)
        case None => -1
        case Some(q) =>
          var codeBuf := Truncate(s[SpacesFrom(s, q)..], CODE_DIGITS);
          if FullyConverted(codeBuf) then Strtol(codeBuf).value else -1
  }

  /** extractStatusCode: strstr, strchr, the space-skipping loop, then strtol on three characters. */
  method ExtractStatusCode(response: seq<char>) returns (code: int)
    ensures code == StatusCode(CString(response))
  {
    var s := CString(response);
    if |s| == 0 {
      return -1;
    }
    var mark := Find(s, STATUS_MARK, 0);
    if mark.None? {
      return -1;
    }
    var space := IndexOf(s, ' ', mark.value);
    if space.None? {
      return -1;
    }
    var p := space.value;
    while p < |s| && s[p] == ' '
      invariant space.value <= p <= |s|
      invariant SpacesFrom(s, space.value) == SpacesFrom(s, p)
    {
      p := p + 1;
    }
    var codeBuf := Truncate(s[p..], CODE_DIGITS);
    var conversion := Strtol(codeBuf);
    if conversion.end != |codeBuf| {
      return -1;
    }
    return conversion.value;
  }

  /** Strtol on at most three characters gives a value in [-99, 999]. */
  lemma ShortConversionRange(t: string)
    requires |t| <= CODE_DIGITS
    ensures -99 <= Strtol(t).value <= 999
  {
    var i := SpaceRun(t, 0);
    var signed := i < |t| && (t[i] == '+' || t[i] == '-');
    var j := if signed then i + 1 else i;
    var k := DigitRun(t, j);
    if k != j {
      DecimalBound(t[j..k]);
      assert Pow10(1) == 10 && Pow10(2) == 100 && Pow10(3) == 1000;
      assert signed ==> k - j <= 2;
    }
  }

  /** The status code is -1 or a value strtol can read from three characters. */
  lemma StatusCodeRange(s: string)
    ensures -99 <= StatusCode(s) <= 999
  {
    if s != [] && Find(s, STATUS_MARK, 0).Some? {
      var k := Find(s, STATUS_MARK, 0).value;
      if IndexOf(s, ' ', k).Some? {
        var q := IndexOf(s, ' ', k).value;
        ShortConversionRange(Truncate(s[SpacesFrom(s, q)..], CODE_DIGITS));
      }
    }
  }

  /** No "HTTP/" anywhere (in particular an empty response) gives -1. */
  lemma StatusCodeWithoutMark(s: string)
    requires forall i :: 0 <= i <= |s| ==> !OccursAt(s, STATUS_MARK, i)
    ensures StatusCode(s) == -1
  {
  }

  /** "HTTP/" with no space after it gives -1. */
  lemma StatusCodeWithoutSpace(s: string, k: nat)
    requires k <= |s| && Find(s, STATUS_MARK, 0) == Some(k)
    requires forall j :: k <= j < |s| ==> s[j] != ' '
    ensures StatusCode(s) == -1
  {
  }

  /** "HTTP/" at the very start is the first one Find reports. */
  lemma MarkAtStart(s: string)
    requires |s| >= |STATUS_MARK| && s[..|STATUS_MARK|] == STATUS_MARK
    ensures Find(s, STATUS_MARK, 0) == Some(0)
  {
    assert OccursAt(s, STATUS_MARK, 0);
  }

  /** SpacesFrom stops at the first character that is not a space. */
  lemma SpacesFromAt(s: string, q: nat, c: nat)
    requires q <= c < |s| && s[c] != ' '
    requires forall j :: q <= j < c ==> s[j] == ' '
    ensures SpacesFrom(s, q) == c
  {
  }

  /**
   * A status line `HTTP/<version> <code>...` with a space-free version,
   * one or more spaces and a three-digit code gives that code.
   */
  lemma StatusLineCode(version: string, gap: string, code: string, rest: string)
    requires ' ' !in version
    requires |gap| > 0 && forall j :: 0 <= j < |gap| ==> gap[j] == ' '
    requires |code| == CODE_DIGITS && AllDigits(code)
    ensures StatusCode(STATUS_MARK + version + gap + code + rest) == Decimal(code)
  {
    StatusLineLayout(version, gap, code, rest);
    var q := |STATUS_MARK| + |version|;
    StatusCodeAt(STATUS_MARK + version + gap + code + rest, q, q + |gap|);
  }

  /** Where the parts of a status line sit. */
  lemma StatusLineLayout(version: string, gap: string, code: string, rest: string)
    requires ' ' !in version
    requires forall j :: 0 <= j < |gap| ==> gap[j] == ' '
    requires |code| == CODE_DIGITS
    ensures var s := STATUS_MARK + version + gap + code + rest;
      var q := |STATUS_MARK| + |version|;
      var c := q + |gap|;
      && c + CODE_DIGITS <= |s|
      && s[..|STATUS_MARK|] == STATUS_MARK
      && (forall j :: 0 <= j < q ==> s[j] != ' ')
      && (forall j :: q <= j < c ==> s[j] == ' ')
      && s[c..c + CODE_DIGITS] == code
  {
    var s := STATUS_MARK + version + gap + code + rest;
    var q := |STATUS_MARK| + |version|;
    var c := q + |gap|;
    assert forall j :: 0 <= j < q ==> s[j] != ' ' by {
      forall j | 0 <= j < q ensures s[j] != ' ' {
        if j >= |STATUS_MARK| {
          assert s[j] == version[j - |STATUS_MARK|];
        }
      }
    }
    assert forall j :: q <= j < c ==> s[j] == gap[j - q];
    assert forall j :: 0 <= j < CODE_DIGITS ==> s[c + j] == code[j];
  }

  /** strchr finds the first occurrence. */
  lemma IndexOfFirst(s: string, ch: char, from: nat, q: nat)
    requires from <= q < |s| && s[q] == ch
    requires forall j :: from <= j < q ==> s[j] != ch
    ensures IndexOf(s, ch, from) == Some(q)
  {
  }

  /** The general shape behind StatusLineCode, stated by positions in one string. */
  lemma StatusCodeAt(s: string, q: nat, c: nat)
    requires |s| >= |STATUS_MARK| && s[..|STATUS_MARK|] == STATUS_MARK
    requires q < c && c + CODE_DIGITS <= |s|
    requires forall j :: 0 <= j < q ==> s[j] != ' '
    requires forall j :: q <= j < c ==> s[j] == ' '
    requires AllDigits(s[c..c + CODE_DIGITS])
    ensures StatusCode(s) == Decimal(s[c..c + CODE_DIGITS])
  {
    MarkAtStart(s);
    IndexOfFirst(s, ' ', 0, q);
    var code := s[c..c + CODE_DIGITS];
    assert IsDigit(code[0]);
    SpacesFromAt(s, q, c);
    assert Truncate(s[c..], CODE_DIGITS) == code;
    StrtolDigits(code);
    assert FullyConverted(code);
  }

  /** The window extractStatusCode hands to strtol: up to three characters after the space run. */
  function CodeWindow(s: string, c: nat): string
    requires c <= |s|
  {
    Truncate(s[c..], CODE_DIGITS)
  }

  /**
   * Wherever the first "HTTP/" stands (not only on the first line), the code
   * is what strtol makes of the window after the first space run that
   * follows it, or -1 when strtol does not read the whole window.
   */
  lemma StatusCodeOfWindow(s: string, k: nat, q: nat, c: nat)
    requires Find(s, STATUS_MARK, 0) == Some(k)
    requires k <= q < c <= |s| && s[q] == ' ' && forall j :: k <= j < q ==> s[j] != ' '
    requires (forall j :: q <= j < c ==> s[j] == ' ') && (c < |s| ==> s[c] != ' ')
    ensures StatusCode(s) == if FullyConverted(CodeWindow(s, c)) then Strtol(CodeWindow(s, c)).value else -1
  {
    IndexOfFirst(s, ' ', k, q);
    if c < |s| {
      SpacesFromAt(s, q, c);
    }
  }

  /**
   * A status of 100 or more was read from exactly three digits: strtol's
   * lenient forms (blanks, a sign, a short or empty window) never yield a
   * 3xx code, so they never change the redirect decision.
   */
  lemma HighCodeHasThreeDigits(s: string)
    requires StatusCode(s) >= 100
    ensures Find(s, STATUS_MARK, 0).Some?
    ensures IndexOf(s, ' ', Find(s, STATUS_MARK, 0).value).Some?
    ensures var w := CodeWindow(s, SpacesFrom(s, IndexOf(s, ' ', Find(s, STATUS_MARK, 0).value).value));
      |w| == CODE_DIGITS && AllDigits(w) && StatusCode(s) == Decimal(w)
  {
    var k := Find(s, STATUS_MARK, 0).value;
    var q := IndexOf(s, ' ', k).value;
    var w := CodeWindow(s, SpacesFrom(s, q));
    WindowOfHighCode(w);
  }

  /** A fully read window of at most three characters worth 100 or more is three digits. */
  lemma WindowOfHighCode(w: string)
    requires |w| <= CODE_DIGITS && FullyConverted(w) && Strtol(w).value >= 100
    ensures |w| == CODE_DIGITS && AllDigits(w) && Strtol(w).value == Decimal(w)
  {
    FullConversionDigits(w);
    NeedsThreeDigits(w[NumberStart(w)..|w|]);
    assert w[NumberStart(w)..|w|] == w;
  }

  /** A positive value read from the whole of `w` is the decimal value of the digits after the sign. */
  lemma FullConversionDigits(w: string)
    requires FullyConverted(w) && Strtol(w).value > 0
    ensures NumberStart(w) < |w| && AllDigits(w[NumberStart(w)..|w|])
    ensures Strtol(w).value == Decimal(w[NumberStart(w)..|w|])
  {
    assert Strtol(w).end == |w| > 0;
  }

  /** A run of at most three digits worth 100 or more has exactly three. */
  lemma NeedsThreeDigits(d: string)
    requires |d| <= CODE_DIGITS && AllDigits(d) && Decimal(d) >= 100
    ensures |d| == CODE_DIGITS
  {
    DecimalBound(d);
    SmallPowers();
  }

  /** The powers of ten up to a three-digit window. */
  lemma SmallPowers()
    ensures Pow10(0) == 1 && Pow10(1) == 10 && Pow10(2) == 100 && Pow10(3) == 1000
  {
  }

  /** Two spaces and nothing after "HTTP/1.1": the empty window is fully read, so the code is 0, not -1. */
  lemma EmptyWindowGivesZero(version: string, gap: string)
    requires ' ' !in version
    requires |gap| > 0 && forall j :: 0 <= j < |gap| ==> gap[j] == ' '
    ensures StatusCode(STATUS_MARK + version + gap) == 0
  {
    var s := STATUS_MARK + version + gap;
    var q := |STATUS_MARK| + |version|;
    assert s[..|STATUS_MARK|] == STATUS_MARK;
    MarkAtStart(s);
    assert forall j :: 0 <= j < q ==> s[j] != ' ' by {
      forall j | 0 <= j < q ensures s[j] != ' ' {
        if j >= |STATUS_MARK| {
          assert s[j] == version[j - |STATUS_MARK|];
        }
      }
    }
    assert forall j :: q <= j < |s| ==> s[j] == gap[j - q];
    StatusCodeOfWindow(s, 0, q, |s|);
    assert CodeWindow(s, |s|) == [];
  }

  /** strtol's lenient forms in the window: a `+` sign is skipped, so `+20` gives 20. */
  lemma PlusSignCodeExample(version: string)
    requires ' ' !in version
    ensures StatusCode(STATUS_MARK + version + " " + "+20") == 20
  {
    var w := "+20";
    assert SpaceRun(w, 0) == 0;
    assert w[1..] == "20" && "20"[..1] == "2";
    assert Decimal("20") == 20;
    LenientCode(version, w, 1, 20);
  }

  /** A `-` sign is read too, so `-5` gives the status -5. */
  lemma MinusSignCodeExample(version: string)
    requires ' ' !in version
    ensures StatusCode(STATUS_MARK + version + " " + "-5") == -5
  {
    var w := "-5";
    assert SpaceRun(w, 0) == 0;
    assert w[1..] == "5" && "5"[..0] == "";
    assert Decimal("5") == 5;
    LenientCode(version, w, 1, -5);
  }

  /** strtol skips white space the space loop leaves: a tab before `42` gives 42. */
  lemma TabBeforeCodeExample(version: string)
    requires ' ' !in version
    ensures StatusCode(STATUS_MARK + version + " " + "\t42") == 42
  {
    var w := "\t42";
    assert SpaceRun(w, 1) == 1;
    assert SpaceRun(w, 0) == 1;
    assert w[1..] == "42" && "42"[..1] == "4";
    assert Decimal("42") == 42;
    LenientCode(version, w, 1, 42);
  }

  /**
   * `HTTP/<version> ` followed by a window `w` of three characters or fewer
   * that strtol reads whole after blanks and a sign: the code is its value.
   */
  lemma LenientCode(version: string, w: string, j: nat, v: int)
    requires ' ' !in version
    requires 0 < |w| <= CODE_DIGITS && w[0] != ' ' && 0 < j < |w| && AllDigits(w[j..])
    requires NumberStart(w) == j
    requires v == if w[j - 1] == '-' then -(Decimal(w[j..]) as int) else Decimal(w[j..])
    ensures StatusCode(STATUS_MARK + version + " " + w) == v
  {
    ShortWindowLine(version, w);
    DigitRunFrom(w, j);
    assert w[j..|w|] == w[j..];
    assert Strtol(w).end == |w|;
  }

  /** After `HTTP/<version> `, a window of at most three characters not opening with a space is read whole. */
  lemma ShortWindowLine(version: string, w: string)
    requires ' ' !in version
    requires 0 < |w| <= CODE_DIGITS && w[0] != ' '
    ensures StatusCode(STATUS_MARK + version + " " + w) == if FullyConverted(w) then Strtol(w).value else -1
  {
    var s := STATUS_MARK + version + " " + w;
    var q := |STATUS_MARK| + |version|;
    assert s[..|STATUS_MARK|] == STATUS_MARK;
    MarkAtStart(s);
    assert s[q + 1..] == w;
    assert s[q] == ' ' && s[q + 1] == w[0];
    assert forall i :: 0 <= i < q ==> s[i] != ' ' by {
      forall i | 0 <= i < q ensures s[i] != ' ' {
        if i >= |STATUS_MARK| {
          assert s[i] == version[i - |STATUS_MARK|];
        }
      }
    }
    assert CodeWindow(s, q + 1) == w;
    StatusCodeOfWindow(s, 0, q, q + 1);
  }

  /** On a suffix of digits, the digit run reaches the end. */
  lemma DigitRunFrom(w: string, j: nat)
    requires j <= |w| && AllDigits(w[j..])
    ensures DigitRun(w, j) == |w|
    decreases |w| - j
  {
    if j < |w| {
      assert IsDigit(w[j..][0]);
      assert w[j + 1..] == w[j..][1..];
      DigitRunFrom(w, j + 1);
    }
  }

  /**
   * "HTTP/" on a later line is used too: behind lines without an `H`, a
   * status line `HTTP/<version> <3 digits>...` gives those digits' value.
   */
  lemma MarkOnLaterLineExample(pre: string, version: string, code: string, rest: string)
    requires |pre| > 0 && pre[|pre| - 1] == '\n'
    requires forall j :: 0 <= j < |pre| ==> pre[j] != 'H'
    requires ' ' !in version
    requires |code| == CODE_DIGITS && AllDigits(code)
    ensures StatusCode(pre + (STATUS_MARK + version + " " + code + rest)) == Decimal(code)
  {
    var t := STATUS_MARK + version + " " + code + rest;
    var q := |STATUS_MARK| + |version|;
    assert |t| >= |STATUS_MARK| && t[..|STATUS_MARK|] == STATUS_MARK;
    assert IndexOf(t, ' ', 0) == Some(q) && SpacesFrom(t, q) == q + 1 && CodeWindow(t, q + 1) == code by {
      StatusLineLayout(version, " ", code, rest);
      IndexOfFirst(t, ' ', 0, q);
      assert t[q + 1] == code[0] && IsDigit(code[0]);
      SpacesFromAt(t, q, q + 1);
    }
    StatusLineAfterPrefix(pre, t, q, code);
  }

  /** A status line `t` whose code window is three digits keeps its code behind a prefix without an `H`. */
  lemma StatusLineAfterPrefix(pre: string, t: string, q: nat, code: string)
    requires forall j :: 0 <= j < |pre| ==> pre[j] != 'H'
    requires |t| >= |STATUS_MARK| && t[..|STATUS_MARK|] == STATUS_MARK
    requires IndexOf(t, ' ', 0) == Some(q) && SpacesFrom(t, q) == q + 1 && CodeWindow(t, q + 1) == code
    requires |code| == CODE_DIGITS && AllDigits(code)
    ensures StatusCode(pre + t) == Decimal(code)
  {
    MarkAfterPrefix(pre, t);
    StatusLineShifted(pre, t, q, code);
  }

  /** When the first "HTTP/" of `pre + t` opens `t`, the code is the one `t`'s own status line gives. */
  lemma StatusLineShifted(pre: string, t: string, q: nat, code: string)
    requires Find(pre + t, STATUS_MARK, 0) == Some(|pre|)
    requires IndexOf(t, ' ', 0) == Some(q) && SpacesFrom(t, q) == q + 1 && CodeWindow(t, q + 1) == code
    requires |code| == CODE_DIGITS && AllDigits(code)
    ensures StatusCode(pre + t) == Decimal(code)
  {
    StatusLinePartsShifted(pre, t, q);
    StatusCodeFromParts(pre + t, |pre|, |pre| + q, |pre| + q + 1, code);
  }

  /** The space, the end of the space run and the code window of `t`, seen inside `pre + t`. */
  lemma StatusLinePartsShifted(pre: string, t: string, q: nat)
    requires IndexOf(t, ' ', 0) == Some(q) && SpacesFrom(t, q) == q + 1
    ensures IndexOf(pre + t, ' ', |pre|) == Some(|pre| + q)
    ensures SpacesFrom(pre + t, |pre| + q) == |pre| + q + 1
    ensures CodeWindow(pre + t, |pre| + q + 1) == CodeWindow(t, q + 1)
  {
    IndexOfShift(pre, t, ' ', 0);
    SpacesFromShift(pre, t, q);
    WindowShift(pre, t, q + 1);
  }

  /** The status read from a three-digit window found after the mark, the space and the space run. */
  lemma StatusCodeFromParts(s: string, k: nat, q: nat, c: nat, code: string)
    requires Find(s, STATUS_MARK, 0) == Some(k)
    requires k <= |s| && IndexOf(s, ' ', k) == Some(q)
    requires q <= |s| && SpacesFrom(s, q) == c
    requires c <= |s| && CodeWindow(s, c) == code
    requires |code| == CODE_DIGITS && AllDigits(code)
    ensures StatusCode(s) == Decimal(code)
  {
    StrtolDigits(code);
    StatusCodeAfterMark(s, k);
  }

  /** Behind a prefix without an `H`, the first "HTTP/" is the one that opens the rest. */
  lemma MarkAfterPrefix(pre: string, t: string)
    requires forall j :: 0 <= j < |pre| ==> pre[j] != 'H'
    requires |t| >= |STATUS_MARK| && t[..|STATUS_MARK|] == STATUS_MARK
    ensures Find(pre + t, STATUS_MARK, 0) == Some(|pre|)
  {
    var s := pre + t;
    assert s[|pre|..|pre| + |STATUS_MARK|] == STATUS_MARK;
    forall j | 0 <= j < |pre| ensures !OccursAt(s, STATUS_MARK, j) {
      assert s[j] == pre[j];
      if j + |STATUS_MARK| <= |s| {
        assert s[j..j + |STATUS_MARK|][0] == s[j];
      }
    }
    FindFirstAt(s, STATUS_MARK, |pre|);
  }

  /** The code window at a position of `t` is the same inside `pre + t`. */
  lemma WindowShift(pre: string, t: string, c: nat)
    requires c <= |t|
    ensures CodeWindow(pre + t, |pre| + c) == CodeWindow(t, c)
  {
    assert (pre + t)[|pre| + c..] == t[c..];
  }

  /** StatusCode once "HTTP/" is found at `k`: -1 without a later space, else strtol's reading of the window. */
  lemma StatusCodeAfterMark(s: string, k: nat)
    requires Find(s, STATUS_MARK, 0) == Some(k)
    ensures k <= |s|
    ensures IndexOf(s, ' ', k).None? ==> StatusCode(s) == -1
    ensures IndexOf(s, ' ', k).Some? ==>
      var w := CodeWindow(s, SpacesFrom(s, IndexOf(s, ' ', k).value));
      StatusCode(s) == if FullyConverted(w) then Strtol(w).value else -1
  {
    assert s != [];
  }

  /** strchr in `pre + t` from inside `t` finds the position it finds in `t`, shifted. */
  lemma {:induction false} IndexOfShift(pre: string, t: string, ch: char, i: nat)
    requires i <= |t|
    ensures IndexOf(pre + t, ch, |pre| + i) ==
      (if IndexOf(t, ch, i).Some? then Some(|pre| + IndexOf(t, ch, i).value) else None)
    decreases |t| - i
  {
    if i < |t| {
      assert (pre + t)[|pre| + i] == t[i];
      IndexOfShift(pre, t, ch, i + 1);
    }
  }

  /** The space loop in `pre + t` from inside `t` stops where it stops in `t`, shifted. */
  lemma {:induction false} SpacesFromShift(pre: string, t: string, i: nat)
    requires i <= |t|
    ensures SpacesFrom(pre + t, |pre| + i) == |pre| + SpacesFrom(t, i)
    decreases |t| - i
  {
    if i < |t| {
      assert (pre + t)[|pre| + i] == t[i];
      SpacesFromShift(pre, t, i + 1);
    }
  }

  /** strstr reports the first occurrence. */
  lemma FindFirstAt(s: string, needle: string, p: nat)
    requires p <= |s| && OccursAt(s, needle, p)
    requires forall j :: 0 <= j < p ==> !OccursAt(s, needle, j)
    ensures Find(s, needle, 0) == Some(p)
  {
    var r := Find(s, needle, 0);
    assert r.Some?;
  }

  // ---- Location ----

  /** The first index at or after `i` that holds neither a space nor a tab. */
  function BlanksFrom(s: string, i: nat): (k: nat)
    requires i <= |s|
    ensures i <= k <= |s|
    ensures forall j :: i <= j < k ==> s[j] == ' ' || s[j] == '\t'
    ensures k < |s| ==> s[k] != ' ' && s[k] != '\t'
    decreases |s| - i
  {
    if i < |s| && (s[i] == ' ' || s[i] == '\t') then BlanksFrom(s, i + 1) else i
  }

  /** Where copying from `i` stops: CR, LF, the end, or `left` characters later. */
  function LineEnd(s: string, i: nat, left: nat): (k: nat)
    requires i <= |s|
    ensures i <= k <= |s| && k <= i + left
    ensures forall j :: i <= j < k ==> s[j] != '\r' && s[j] != '\n'
    ensures k < |s| && k < i + left ==> s[k] == '\r' || s[k] == '\n'
    decreases left
  {
    if i == |s| || s[i] == '\r' || s[i] == '\n' || left == 0 then i else LineEnd(s, i + 1, left - 1)
  }

  /** The first position at or after `from` where "location:" starts, ignoring case. */
  function FindLocation(s: string, from: nat): (r: Option<nat>)
    requires from <= |s|
    ensures r.Some? ==> from <= r.value < |s| && MatchesIgnoringCase(s, LOCATION_NEEDLE, r.value)
    ensures forall p :: from <= p < |s| && (r.None? || p < r.value) ==> !MatchesIgnoringCase(s, LOCATION_NEEDLE, p)
    decreases |s| - from
  {
    if from == |s| then None
    else if MatchesIgnoringCase(s, LOCATION_NEEDLE, from) then Some(from)
    else FindLocation(s, from + 1)
  }

  /**
   * extractLocationHeader as a function of the C string: after the first
   * "location:" match, skip spaces and tabs and take the rest of the line,
   * at most 1023 characters; None when there is no match.
   */
  function Location(s: string): (r: Option<string>)
    ensures r.Some? ==> '\r' !in r.value && '\n' !in r.value && |r.value| < LOCATION_URL_SIZE
  {
    match FindLocation(s, 0)
    case None => None
    case Some(p) =>
      var v := BlanksFrom(s, p + |LOCATION_NEEDLE|);
      var e := LineEnd(s, v, LOCATION_URL_SIZE - 1);
      assert forall j :: 0 <= j < e - v ==> s[v..e][j] == s[v + j];
      Some(s[v..e])
  }

  /** The `while (*p == ' ' || *p == '\t')` loop. */
  method SkipBlanks(s: string, i: nat) returns (q: nat)
    requires i <= |s|
    ensures q == BlanksFrom(s, i)
  {
    q := i;
    while q < |s| && (s[q] == ' ' || s[q] == '\t')
      invariant i <= q <= |s|
      invariant BlanksFrom(s, i) == BlanksFrom(s, q)
    {
      q := q + 1;
    }
  }

  /** The copying loop into locationURL: stops at CR, LF, the end or 1023 characters. */
  method CopyLine(s: string, v: nat) returns (url: string)
    requires v <= |s|
    ensures url == s[v..LineEnd(s, v, LOCATION_URL_SIZE - 1)]
  {
    url := "";
    var q := v;
    var i := 0;
    while q < |s| && s[q] != '\r' && s[q] != '\n' && i < LOCATION_URL_SIZE - 1
      invariant v <= q <= |s| && i == q - v && i <= LOCATION_URL_SIZE - 1
      invariant url == s[v..q]
      invariant LineEnd(s, v, LOCATION_URL_SIZE - 1) == LineEnd(s, q, LOCATION_URL_SIZE - 1 - i)
    {
      url := url + [s[q]];
      q := q + 1;
      i := i + 1;
    }
  }

  /** extractLocationHeader: the strncasecmp scan, the blank-skipping loop and the copying loop. */
  method ExtractLocationHeader(response: seq<char>) returns (location: Option<string>)
    ensures location == Location(CString(response))
  {
    var s := CString(response);
    var p := 0;
    while p < |s|
      invariant p <= |s|
      invariant FindLocation(s, 0) == FindLocation(s, p)
    {
      if MatchesIgnoringCase(s, LOCATION_NEEDLE, p) {
        var v := SkipBlanks(s, p + |LOCATION_NEEDLE|);
        var url := CopyLine(s, v);
        return Some(url);
      }
      p := p + 1;
    }
    return None;
  }

  /** There is a Location value exactly when "location:" occurs somewhere, in any case. */
  lemma LocationPresentIff(s: string)
    ensures Location(s).None? <==> forall p :: 0 <= p < |s| ==> !MatchesIgnoringCase(s, LOCATION_NEEDLE, p)
  {
  }

  /**
   * A header line `<name><blanks><value>` whose name spells "location:" in
   * any case, with no earlier match, yields the value up to the line break.
   */
  lemma LocationLineValue(prefix: string, name: string, blanks: string, value: string, rest: string)
    requires var s := prefix + name + blanks + value + rest;
      forall p :: 0 <= p < |prefix| ==> !MatchesIgnoringCase(s, LOCATION_NEEDLE, p)
    requires |name| == |LOCATION_NEEDLE| && forall k :: 0 <= k < |name| ==> ToLower(name[k]) == LOCATION_NEEDLE[k]
    requires forall j :: 0 <= j < |blanks| ==> blanks[j] == ' ' || blanks[j] == '\t'
    requires '\r' !in value && '\n' !in value && |value| < LOCATION_URL_SIZE
    requires value != [] ==> value[0] != ' ' && value[0] != '\t'
    requires rest != [] ==> rest[0] == '\r' || rest[0] == '\n'
    ensures Location(prefix + name + blanks + value + rest) == Some(value)
  {
    LocationLineLayout(prefix, name, blanks, value, rest);
    var v := |prefix| + |name| + |blanks|;
    LocationAt(prefix + name + blanks + value + rest, |prefix|, v, v + |value|);
  }

  /** Where the parts of a header line sit. */
  lemma LocationLineLayout(prefix: string, name: string, blanks: string, value: string, rest: string)
    requires |name| == |LOCATION_NEEDLE| && forall k :: 0 <= k < |name| ==> ToLower(name[k]) == LOCATION_NEEDLE[k]
    requires forall j :: 0 <= j < |blanks| ==> blanks[j] == ' ' || blanks[j] == '\t'
    requires '\r' !in value && '\n' !in value
    requires value != [] ==> value[0] != ' ' && value[0] != '\t'
    requires rest != [] ==> rest[0] == '\r' || rest[0] == '\n'
    ensures var s := prefix + name + blanks + value + rest;
      var p := |prefix|;
      var v := p + |name| + |blanks|;
      var e := v + |value|;
      && e <= |s|
      && MatchesIgnoringCase(s, LOCATION_NEEDLE, p)
      && (forall j :: p + |name| <= j < v ==> s[j] == ' ' || s[j] == '\t')
      && (v < |s| ==> s[v] != ' ' && s[v] != '\t')
      && (forall j :: v <= j < e ==> s[j] != '\r' && s[j] != '\n')
      && (e < |s| ==> s[e] == '\r' || s[e] == '\n')
      && s[v..e] == value
  {
    var s := prefix + name + blanks + value + rest;
    var p := |prefix|;
    var b := p + |name|;
    var v := b + |blanks|;
    var e := v + |value|;
    assert forall k :: 0 <= k < |name| ==> s[p + k] == name[k];
    assert forall j :: b <= j < v ==> s[j] == blanks[j - b];
    assert forall j :: v <= j < e ==> s[j] == value[j - v];
    if value != [] {
      assert s[v] == value[0];
    } else if rest != [] {
      assert s[v] == rest[0];
    }
    if rest != [] {
      assert s[e] == rest[0];
    }
    assert s[v..e] == value;
  }

  /** The general shape behind LocationLineValue, stated by positions in one string. */
  lemma LocationAt(s: string, p: nat, v: nat, e: nat)
    requires p + |LOCATION_NEEDLE| <= v <= e <= |s| && e - v < LOCATION_URL_SIZE
    requires MatchesIgnoringCase(s, LOCATION_NEEDLE, p)
    requires forall j :: 0 <= j < p ==> !MatchesIgnoringCase(s, LOCATION_NEEDLE, j)
    requires forall j :: p + |LOCATION_NEEDLE| <= j < v ==> s[j] == ' ' || s[j] == '\t'
    requires v < |s| ==> s[v] != ' ' && s[v] != '\t'
    requires forall j :: v <= j < e ==> s[j] != '\r' && s[j] != '\n'
    requires e < |s| ==> s[e] == '\r' || s[e] == '\n'
    ensures Location(s) == Some(s[v..e])
  {
    FindLocationAt(s, p);
    BlanksFromAt(s, p + |LOCATION_NEEDLE|, v);
    var value := s[v..e];
    assert forall j :: 0 <= j < |value| ==> value[j] == s[v + j];
    LineEndAt(s, v, LOCATION_URL_SIZE - 1, e, value);
  }

  /** FindLocation reports the first match. */
  lemma FindLocationAt(s: string, p: nat)
    requires p < |s| && MatchesIgnoringCase(s, LOCATION_NEEDLE, p)
    requires forall j :: 0 <= j < p ==> !MatchesIgnoringCase(s, LOCATION_NEEDLE, j)
    ensures FindLocation(s, 0) == Some(p)
  {
  }

  /** BlanksFrom stops at the first character that is neither a space nor a tab. */
  lemma BlanksFromAt(s: string, b: nat, v: nat)
    requires b <= v <= |s|
    requires forall j :: b <= j < v ==> s[j] == ' ' || s[j] == '\t'
    requires v < |s| ==> s[v] != ' ' && s[v] != '\t'
    ensures BlanksFrom(s, b) == v
  {
  }

  lemma {:induction false} LineEndAt(s: string, i: nat, left: nat, e: nat, value: string)
    requires i <= e <= |s| && e - i <= left && s[i..e] == value
    requires '\r' !in value && '\n' !in value
    requires e < |s| ==> s[e] == '\r' || s[e] == '\n'
    ensures LineEnd(s, i, left) == e
    decreases left
  {
    if i < e {
      assert s[i] == value[0];
      assert s[i + 1..e] == value[1..];
      LineEndAt(s, i + 1, left - 1, e, value[1..]);
    }
  }

  /** "HTTP/1.1 301 Moved Permanently..." gives 301, whatever follows the code. */
  lemma MovedPermanentlyCode(rest: string)
    ensures StatusCode(STATUS_MARK + "1.1" + " " + "301" + rest) == 301
  {
    var version := "1.1";
    assert version[0] != ' ' && version[1] != ' ' && version[2] != ' ';
    var code := "301";
    assert IsDigit(code[0]) && IsDigit(code[1]) && IsDigit(code[2]);
    StatusLineCode(version, " ", code, rest);
    assert code[..2] == "30" && "30"[..1] == "3" && "3"[..0] == [];
    assert Decimal("3") == 3;
    assert Decimal("30") == 30;
  }

  /** "LOCATION:" lowers to the needle. */
  lemma UpperCaseNeedle()
    ensures var name := "LOCATION:";
      |name| == |LOCATION_NEEDLE| && forall k :: 0 <= k < |name| ==> ToLower(name[k]) == LOCATION_NEEDLE[k]
  {
    assert ToLower('L') == 'l' && ToLower('O') == 'o' && ToLower('C') == 'c' && ToLower('A') == 'a';
    assert ToLower('T') == 't' && ToLower('I') == 'i' && ToLower('N') == 'n' && ToLower(':') == ':';
  }

  /** An upper-case header name and a tab before the value: "LOCATION:\thttp://a/" gives "http://a/". */
  lemma UpperCaseLocationExample(rest: string)
    requires rest != [] ==> rest[0] == '\r' || rest[0] == '\n'
    ensures Location("LOCATION:" + "\t" + "http://a/" + rest) == Some("http://a/")
  {
    var name, blanks, value := "LOCATION:", "\t", "http://a/";
    assert |name| == |LOCATION_NEEDLE| && forall k :: 0 <= k < |name| ==> ToLower(name[k]) == LOCATION_NEEDLE[k] by {
      UpperCaseNeedle();
    }
    assert '\r' !in value && '\n' !in value && value[0] == 'h';
    assert [] + name + blanks + value + rest == "LOCATION:" + "\t" + "http://a/" + rest;
    LocationLineValue([], name, blanks, value, rest);
  }
}
