/**
 * The loop logic of the transport: sendAll retries partial writes, and
 * receiveResponse accumulates recv() chunks in a growing heap buffer until
 * the peer closes.  The socket calls themselves are the inputs: the values
 * send() returns, and the chunks recv() delivers followed by how it ended.
 */
module Transport {
  import opened LibC

  // ---- sendAll ----

  /** Sum of send() results, last one added last. */
  function Sum(s: seq<int>): int {
    if s == [] then 0 else Sum(s[..|s| - 1]) + s[|s| - 1]
  }

  /**
   * A run of send() results that ends the loop with `remaining` bytes to go:
   * every count is at most what was asked for, and the run reaches either
   * zero bytes left or an error (a negative result).
   */
  predicate SendRunEnds(remaining: nat, results: seq<int>)
    decreases |results|
  {
    || remaining == 0
    || (|results| > 0 && (results[0] < 0 || (results[0] <= remaining && SendRunEnds(remaining - results[0], results[1..]))))
  }

  /**
   * sendAll: call send() on the unsent rest until everything is sent or a
   * call fails.  `sent` is the byte stream handed to the socket.
   */
  method SendAll(buf: seq<char>, results: seq<int>) returns (ok: bool, calls: nat, sent: seq<char>)
    requires SendRunEnds(|buf|, results)
    ensures calls <= |results|
    ensures ok <==> forall k :: 0 <= k < calls ==> results[k] >= 0
    ensures ok ==> sent == buf && Sum(results[..calls]) == |buf|
    ensures ok ==> calls == 0 || Sum(results[..calls - 1]) < |buf|
    ensures !ok ==> 0 < calls && results[calls - 1] < 0 && sent <= buf && |sent| == Sum(results[..calls - 1])
    ensures !ok ==> Sum(results[..calls - 1]) < |buf| && forall k :: 0 <= k < calls - 1 ==> results[k] >= 0
  {
    var totalSent := 0;
    calls := 0;
    sent := [];
    while totalSent < |buf|
      invariant totalSent <= |buf| && calls <= |results|
      invariant SendRunEnds(|buf| - totalSent, results[calls..])
      invariant sent == buf[..totalSent]
      invariant Sum(results[..calls]) == totalSent
      invariant forall k :: 0 <= k < calls ==> results[k] >= 0
      invariant calls == 0 || Sum(results[..calls - 1]) < |buf|
      decreases |results| - calls
    {
      var n := results[calls];
      assert results[..calls + 1][..calls] == results[..calls];
      assert results[calls..][1..] == results[calls + 1..];
      calls := calls + 1;
      if n < 0 {
        return false, calls, sent;
      }
      sent := sent + buf[totalSent..totalSent + n];
      totalSent := totalSent + n;
    }
    assert sent == buf;
    return true, calls, sent;
  }

  // ---- receiveResponse ----

  /** char buffer[MAX_BUFFER_SIZE]: one recv() delivers at most 8192 bytes. */
  const MAX_BUFFER_SIZE := 8192

  /** How the last recv() ended the loop: 0 (peer closed) or < 0 (error). */
  datatype RecvEnd = PeerClosed | RecvFailed

  /** The capacity after a chunk of `n` bytes arrives with `size` bytes stored. */
  function Grow(capacity: nat, size: nat, n: nat): (r: nat)
    ensures r >= capacity && r >= size + n
    ensures size + n < capacity ==> r == capacity
  {
    if size + n >= capacity then
      var doubled := if capacity == 0 then n + 1 else capacity * 2;
      if doubled < size + n then size + n else doubled
    else capacity
  }

  /** The chunks in arrival order, concatenated. */
  function Concat(chunks: seq<seq<char>>): seq<char> {
    if chunks == [] then [] else Concat(chunks[..|chunks| - 1]) + chunks[|chunks| - 1]
  }

  /** The buffer's capacity after the given chunks, starting from no buffer. */
  function CapacityAfter(chunks: seq<seq<char>>): nat {
    if chunks == [] then 0
    else
      var before := chunks[..|chunks| - 1];
      Grow(CapacityAfter(before), |Concat(before)|, |chunks[|chunks| - 1]|)
  }

  /** realloc(buf, newCap) for a growing block: a new block that starts with the old contents. */
  method Realloc(buf: array<char>, newCap: nat) returns (grown: array<char>)
    requires buf.Length <= newCap
    ensures fresh(grown) && grown.Length == newCap
    ensures grown[..buf.Length] == buf[..]
  {
    grown := new char[newCap];
    forall j | 0 <= j < buf.Length {
      grown[j] := buf[j];
    }
  }

  /** memcpy(buf + size, chunk, |chunk|) */
  method CopyAt(buf: array<char>, size: nat, chunk: seq<char>)
    requires size + |chunk| <= buf.Length
    modifies buf
    ensures buf[..size + |chunk|] == old(buf[..size]) + chunk
  {
    forall j | 0 <= j < |chunk| {
      buf[size + j] := chunk[j];
    }
    assert buf[..size + |chunk|] == buf[..size] + buf[size..size + |chunk|];
  }

  /**
   * The growth step of receiveResponse: when `n` more bytes do not fit below
   * the capacity, realloc to twice the capacity (or n + 1 for the first
   * chunk), raised to at least the data size as written, or to one byte
   * above the data under the correction (see GrowWithRoom).
   */
  method MakeRoom(buf: array<char>, size: nat, n: nat, corrected: bool) returns (grown: array<char>)
    requires size <= buf.Length
    ensures grown == buf || fresh(grown)
    ensures grown.Length == if corrected then GrowWithRoom(buf.Length, size, n) else Grow(buf.Length, size, n)
    ensures grown[..size] == buf[..size]
  {
    grown := buf;
    var capacity := buf.Length;
    var floor := if corrected then size + n + 1 else size + n;
    if size + n >= capacity {
      var newCap := if capacity == 0 then n + 1 else capacity * 2;
      if newCap < floor {
        newCap := floor;
      }
      grown := Realloc(buf, newCap);
      assert grown[..size] == grown[..buf.Length][..size];
    }
  }

  /**
   * The receive loop of receiveResponse: each chunk is appended after the
   * stored bytes, growing the heap buffer first when needed.
   */
  method Collect(chunks: seq<seq<char>>, corrected: bool) returns (buf: array<char>, size: nat)
    requires forall k :: 0 <= k < |chunks| ==> 0 < |chunks[k]| <= MAX_BUFFER_SIZE
    ensures fresh(buf)
    ensures size <= buf.Length && buf[..size] == Concat(chunks)
    ensures buf.Length == if corrected then CapacityWithRoomAfter(chunks) else CapacityAfter(chunks)
    ensures corrected && chunks != [] ==> size < buf.Length
    ensures chunks == [] <==> buf.Length == 0
  {
    buf := new char[0];
    size := 0;
    for k := 0 to |chunks|
      invariant fresh(buf)
      invariant size <= buf.Length && buf[..size] == Concat(chunks[..k])
      invariant buf.Length == if corrected then CapacityWithRoomAfter(chunks[..k]) else CapacityAfter(chunks[..k])
      invariant corrected && k > 0 ==> size < buf.Length
      invariant k == 0 <==> buf.Length == 0
    {
      var chunk := chunks[k];
      var bytesRead := |chunk|;
      assert chunks[..k + 1][..k] == chunks[..k];
      buf := MakeRoom(buf, size, bytesRead, corrected);
      CopyAt(buf, size, chunk);
      size := size + bytesRead;
    }
    assert chunks[..|chunks|] == chunks;
  }

  /**
   * receiveResponse with the corrected growth: collect the chunks, then store
   * the terminating NUL at index size of the buffer, when there is one; that
   * store is in bounds.  `terminated` is the NUL-terminated string the caller
   * receives, empty for a NULL buffer.
   */
  method ReceiveResponse(chunks: seq<seq<char>>, end: RecvEnd) returns (ok: bool, response: seq<char>, capacity: nat, terminated: seq<char>)
    requires forall k :: 0 <= k < |chunks| ==> 0 < |chunks[k]| <= MAX_BUFFER_SIZE
    ensures ok <==> end == PeerClosed
    ensures response == Concat(chunks) && capacity == CapacityWithRoomAfter(chunks)
    ensures chunks == [] <==> capacity == 0
    ensures ok && chunks != [] ==> terminated == response + [NUL]
    ensures !ok || chunks == [] ==> terminated == []
  {
    var buf, size := Collect(chunks, true);
    capacity := buf.Length;
    response := buf[..size];
    terminated := [];
    if end == RecvFailed {
      return false, response, capacity, terminated;
    }
    if capacity > 0 {
      buf[size] := NUL;
      terminated := buf[..size + 1];
    }
    ok := true;
  }

  /**
   * receiveResponse as written: the same loop with the growth of
   * client.c, and `nulInBounds` tells whether the final NUL store lands
   * inside the allocation (it is skipped on error and for a NULL buffer).
   */
  method ReceiveResponseAsWritten(chunks: seq<seq<char>>, end: RecvEnd) returns (ok: bool, response: seq<char>, capacity: nat, nulInBounds: bool)
    requires forall k :: 0 <= k < |chunks| ==> 0 < |chunks[k]| <= MAX_BUFFER_SIZE
    ensures ok <==> end == PeerClosed
    ensures response == Concat(chunks) && capacity == CapacityAfter(chunks)
    ensures capacity >= |response|
    ensures nulInBounds <==> !ok || chunks == [] || |response| < capacity
  {
    var buf, size := Collect(chunks, false);
    capacity := buf.Length;
    response := buf[..size];
    if end == RecvFailed {
      return false, response, capacity, true;
    }
    nulInBounds := capacity == 0 || size < capacity;
    ok := true;
  }

  /** The capacity never goes down as chunks arrive, with the growth as written and as corrected. */
  lemma {:induction false} CapacityNeverDecreases(chunks: seq<seq<char>>, i: nat)
    requires i <= |chunks|
    ensures CapacityAfter(chunks[..i]) <= CapacityAfter(chunks)
    ensures CapacityWithRoomAfter(chunks[..i]) <= CapacityWithRoomAfter(chunks)
    decreases |chunks| - i
  {
    if i < |chunks| {
      var before := chunks[..|chunks| - 1];
      assert before[..i] == chunks[..i];
      CapacityNeverDecreases(before, i);
      assert chunks[..|chunks|] == chunks;
    } else {
      assert chunks[..i] == chunks;
    }
  }

  /** As written, the capacity covers the bytes received, but with no byte to spare in general. */
  lemma {:induction false} CapacityCoversData(chunks: seq<seq<char>>)
    ensures CapacityAfter(chunks) >= |Concat(chunks)|
  {
  }

  /** What the buffer holds after the first `i` chunks is a prefix of the final response. */
  lemma {:induction false} ConcatPrefix(chunks: seq<seq<char>>, i: nat)
    requires i <= |chunks|
    ensures Concat(chunks[..i]) <= Concat(chunks)
    decreases |chunks| - i
  {
    if i < |chunks| {
      var before := chunks[..|chunks| - 1];
      assert before[..i] == chunks[..i];
      ConcatPrefix(before, i);
    } else {
      assert chunks[..i] == chunks;
    }
  }

  /**
   * The terminating NUL does not always fit: a 1-byte chunk and then an
   * 8192-byte chunk leave capacity 8193 with 8193 bytes stored, so
   * `(*response)[size] = '\0'` writes one byte past the allocation
   * (ReceiveResponseAsWritten reports `nulInBounds` false for them).
   */
  lemma NulWriteOverflows()
    ensures var chunks := [['a'], seq(MAX_BUFFER_SIZE, _ => 'b')];
      CapacityAfter(chunks) == |Concat(chunks)| == 8193
  {
    var chunks := [['a'], seq(MAX_BUFFER_SIZE, _ => 'b')];
    assert chunks[..1] == [['a']];
    assert [['a']][..0] == [];
    assert CapacityAfter([['a']]) == 2;
    assert |Concat([['a']])| == 1;
  }

  /** The growth the NUL write needs: the floor is one byte above the stored bytes. */
  function GrowWithRoom(capacity: nat, size: nat, n: nat): (r: nat)
    ensures r >= capacity && r > size + n
  {
    if size + n >= capacity then
      var doubled := if capacity == 0 then n + 1 else capacity * 2;
      if doubled < size + n + 1 then size + n + 1 else doubled
    else capacity
  }

  /** The corrected growth differs from the one as written only where that one leaves no byte for the NUL. */
  lemma GrowWithRoomAgrees(capacity: nat, size: nat, n: nat)
    ensures Grow(capacity, size, n) > size + n ==> GrowWithRoom(capacity, size, n) == Grow(capacity, size, n)
    ensures Grow(capacity, size, n) == size + n ==> GrowWithRoom(capacity, size, n) == size + n + 1
  {
  }

  /** The capacity after the given chunks under the corrected growth. */
  function CapacityWithRoomAfter(chunks: seq<seq<char>>): nat {
    if chunks == [] then 0
    else
      var before := chunks[..|chunks| - 1];
      GrowWithRoom(CapacityWithRoomAfter(before), |Concat(before)|, |chunks[|chunks| - 1]|)
  }

  /** With the corrected floor the NUL always fits once any byte has arrived. */
  lemma CapacityWithRoomExceedsData(chunks: seq<seq<char>>)
    requires chunks != []
    ensures CapacityWithRoomAfter(chunks) > |Concat(chunks)|
  {
  }
}
