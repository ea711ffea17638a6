/**
 * The C library routines the client relies on, as functions on the characters
 * of a C string (the characters before its terminating NUL): strtol, strncpy
 * into a bounded buffer, strstr, strchr, strncasecmp against a lower-case
 * needle, and the stop at the first NUL of a received byte buffer.
 */
module LibC {
  import opened Wrappers

  const NUL: char := '\0'

  predicate NulFree(s: seq<char>) {
    forall i :: 0 <= i < |s| ==> s[i] != NUL
  }

  /** The C string stored at the start of buffer `b`: everything before the first NUL. */
  function CString(b: seq<char>): (s: seq<char>)
    ensures s <= b && NulFree(s)
    ensures |s| < |b| ==> b[|s|] == NUL
  {
    if b == [] || b[0] == NUL then [] else [b[0]] + CString(b[1..])
  }

  /** A buffer without NUL is its own C string. */
  lemma {:induction false} CStringOfNulFree(b: seq<char>)
    requires NulFree(b)
    ensures CString(b) == b
  {
    if b != [] {
      CStringOfNulFree(b[1..]);
    }
  }

  /** What a buffer of `n + 1` characters holds after strncpy(buf, s, n) and buf[n] = 0. */
  function Truncate(s: seq<char>, n: nat): (r: seq<char>)
    ensures r <= s
    ensures |r| == if |s| <= n then |s| else n
  {
    if |s| <= n then s else s[..n]
  }

  lemma TruncateAppend(a: seq<char>, b: seq<char>, n: nat)
    ensures Truncate(a, n) + Truncate(b, n - |Truncate(a, n)|) == Truncate(a + b, n)
  {
    if |a| > n {
      assert (a + b)[..n] == a[..n];
    } else {
      if |b| > n - |a| {
        assert (a + b)[..n] == a + b[..n - |a|];
      }
    }
  }

  lemma TruncateTwice(a: seq<char>, b: seq<char>, n: nat)
    ensures Truncate(Truncate(a, n) + b, n) == Truncate(a + b, n)
  {
    if |a| > n {
      assert (a[..n] + b)[..n] == a[..n] == (a + b)[..n];
    }
  }

  // ---- ctype.h in the C locale ----

  predicate IsDigit(c: char) {
    '0' <= c <= '9'
  }

  /** isspace: space, tab, newline, vertical tab, form feed, carriage return. */
  predicate IsSpace(c: char) {
    c == ' ' || c == '\t' || c == '\n' || c == '\U{B}' || c == '\U{C}' || c == '\r'
  }

  /** tolower: only the ASCII capitals change. */
  function ToLower(c: char): (r: char)
    ensures 'A' <= c <= 'Z' ==> 'a' <= r <= 'z' && r as int == c as int + 32
    ensures !('A' <= c <= 'Z') ==> r == c
  {
    if 'A' <= c <= 'Z' then (c as int + 32) as char else c
  }

  predicate AllDigits(s: seq<char>) {
    forall i :: 0 <= i < |s| ==> IsDigit(s[i])
  }

  function DigitValue(c: char): nat
    requires IsDigit(c)
  {
    c as int - '0' as int
  }

  /** The value of a decimal numeral, most significant digit first. */
  function Decimal(d: seq<char>): nat
    requires AllDigits(d)
  {
    if d == [] then 0 else 10 * Decimal(d[..|d| - 1]) + DigitValue(d[|d| - 1])
  }

  lemma {:induction false} DecimalBound(d: seq<char>)
    requires AllDigits(d)
    ensures Decimal(d) < Pow10(|d|)
  {
    if d != [] {
      DecimalBound(d[..|d| - 1]);
    }
  }

  function Pow10(n: nat): (r: nat)
    ensures r >= 1
  {
    if n == 0 then 1 else 10 * Pow10(n - 1)
  }

  // ---- scanning ----

  /** The first index at or after `i` whose character is not whitespace (or |s|). */
  function SpaceRun(s: seq<char>, i: nat): (k: nat)
    requires i <= |s|
    ensures i <= k <= |s|
    ensures forall j :: i <= j < k ==> IsSpace(s[j])
    ensures k < |s| ==> !IsSpace(s[k])
    decreases |s| - i
  {
    if i < |s| && IsSpace(s[i]) then SpaceRun(s, i + 1) else i
  }

  /** The first index at or after `i` whose character is not a decimal digit (or |s|). */
  function DigitRun(s: seq<char>, i: nat): (k: nat)
    requires i <= |s|
    ensures i <= k <= |s|
    ensures AllDigits(s[i..k])
    ensures k < |s| ==> !IsDigit(s[k])
    decreases |s| - i
  {
    if i < |s| && IsDigit(s[i]) then DigitRun(s, i + 1) else i
  }

  /** Result of strtol(s, &end, 10): the value and the index `end` points to. */
  datatype Conversion = Conversion(value: int, end: nat)

  /**
   * strtol with base 10: optional leading whitespace, an optional sign, then
   * decimal digits.  Without any digit the end pointer is the start of the
   * string and the value is 0.  Range errors (ERANGE) are not modelled.
   */
  function Strtol(s: seq<char>): (c: Conversion)
    ensures c.end <= |s|
    ensures c.end == 0 <==> DigitRun(s, NumberStart(s)) == NumberStart(s)
    ensures c.end == 0 ==> c.value == 0
    ensures c.end > 0 ==> IsDigit(s[c.end - 1]) && (c.end < |s| ==> !IsDigit(s[c.end]))
    ensures c.end > 0 ==>
      var j := NumberStart(s);
      && j < c.end && AllDigits(s[j..c.end])
      && (0 < j && s[j - 1] == '-' ==> c.value == -(Decimal(s[j..c.end]) as int))
      && (!(0 < j && s[j - 1] == '-') ==> c.value == Decimal(s[j..c.end]))
  {
    var j := NumberStart(s);
    var k := DigitRun(s, j);
    if k == j then Conversion(0, 0)
    else
      var magnitude: int := Decimal(s[j..k]);
      Conversion(if 0 < j && s[j - 1] == '-' then -magnitude else magnitude, k)
  }

  /** Where strtol's digits start: after the leading whitespace and one optional sign. */
  function NumberStart(s: seq<char>): (j: nat)
    ensures SpaceRun(s, 0) <= j <= |s|
    ensures j == SpaceRun(s, 0) + 1 <==> SpaceRun(s, 0) < |s| && (s[SpaceRun(s, 0)] == '+' || s[SpaceRun(s, 0)] == '-')
    ensures j != SpaceRun(s, 0) + 1 ==> j == SpaceRun(s, 0)
  {
    var i := SpaceRun(s, 0);
    if i < |s| && (s[i] == '+' || s[i] == '-') then i + 1 else i
  }

  /** The C test `*endptr == '\0'` after strtol: the whole string was consumed. */
  predicate FullyConverted(s: seq<char>) {
    Strtol(s).end == |s|
  }

  lemma DigitRunAll(d: seq<char>, i: nat)
    requires AllDigits(d) && i <= |d|
    ensures DigitRun(d, i) == |d|
    decreases |d| - i
  {
    if i < |d| { DigitRunAll(d, i + 1); }
  }

  /** strtol on a plain numeral reads all of it and yields its decimal value. */
  lemma StrtolDigits(d: seq<char>)
    requires |d| > 0 && AllDigits(d)
    ensures Strtol(d) == Conversion(Decimal(d), |d|)
  {
    assert !IsSpace(d[0]);
    DigitRunAll(d, 0);
    assert d[0..|d|] == d;
  }

  // ---- string.h ----

  /** strncmp(s, prefix, |prefix|) == 0 on a C string. */
  predicate StartsWith(s: seq<char>, prefix: seq<char>) {
    |prefix| <= |s| && s[..|prefix|] == prefix
  }

  /** strchr(s + from, c): the first index at or after `from` holding `c`. */
  function IndexOf(s: seq<char>, c: char, from: nat): (r: Option<nat>)
    requires from <= |s|
    ensures r.Some? ==> from <= r.value < |s| && s[r.value] == c
    ensures forall j :: from <= j < |s| && (r.None? || j < r.value) ==> s[j] != c
    decreases |s| - from
  {
    if from == |s| then None
    else if s[from] == c then Some(from)
    else IndexOf(s, c, from + 1)
  }

  predicate OccursAt(s: seq<char>, needle: seq<char>, i: nat) {
    i + |needle| <= |s| && s[i..i + |needle|] == needle
  }

  /** strstr(s + from, needle): the first index at or after `from` where `needle` occurs. */
  function Find(s: seq<char>, needle: seq<char>, from: nat): (r: Option<nat>)
    requires from <= |s|
    ensures r.Some? ==> from <= r.value && OccursAt(s, needle, r.value)
    ensures forall j :: from <= j <= |s| && (r.None? || j < r.value) ==> !OccursAt(s, needle, j)
    decreases |s| - from
  {
    if OccursAt(s, needle, from) then Some(from)
    else if from == |s| then None
    else Find(s, needle, from + 1)
  }

  /** strncasecmp(s + i, needle, |needle|) == 0 for a lower-case needle without NUL. */
  predicate MatchesIgnoringCase(s: seq<char>, needle: seq<char>, i: nat) {
    i + |needle| <= |s| && forall k :: 0 <= k < |needle| ==> ToLower(s[i + k]) == needle[k]
  }
}
