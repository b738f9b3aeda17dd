/** Reading a body into memory up to a limit (internal/helper/helper.go, ReaderToBuffer). */
module BodyBuffer {
  import opened Wrappers

  type Bytes = seq<int>

  /** An io.Reader over a body: it delivers `left` in pieces of any size and then either ends or fails. The
      failure may come `together` with the last bytes or on the read after them. */
  class Source {
    var left: Bytes
    const fails: bool
    const together: bool

    constructor (data: Bytes, fails: bool, together: bool)
      ensures left == data && this.fails == fails && this.together == together
    {
      this.left, this.fails, this.together := data, fails, together;
    }

    /** Read into a buffer of `max` bytes: as many as the network happened to deliver. */
    method Read(max: nat) returns (chunk: Bytes, failed: bool)
      requires max > 0
      modifies this
      ensures old(left) == chunk + left && |chunk| <= max
      ensures old(left) == [] ==> failed == fails
      ensures old(left) != [] ==> chunk != [] && failed == (fails && together && left == [])
    {
      if left == [] {
        return [], fails;
      }
      var n: nat :| 1 <= n <= max && n <= |left|;
      chunk := left[..n];
      left := left[n..];
      failed := fails && together && left == [];
    }
  }

  /** A body still to be read: bytes taken from memory first, then what the source has left. */
  datatype Buffered = Whole(data: Bytes) | Streamed(head: Bytes) | Failed

  /** What buffering does to a source with `left` unread: the answer and what is unread after it. A failure
      that comes together with the last byte under the limit is reported, also at the limit itself. */
  function Buffer(left: Bytes, fails: bool, together: bool, limit: int): (Buffered, Bytes) {
    if limit < 0 then (Whole([]), left)
    else if |left| > limit || (|left| == limit && !(fails && together && limit > 0)) then
      (Streamed(left[..limit]), left[limit..])
    else if fails then (Failed, [])
    else (Whole(left), [])
  }

  method ReaderToBuffer(r: Source, limit: int) returns (b: Buffered)
    modifies r
    ensures (b, r.left) == Buffer(old(r.left), r.fails, r.together, limit)
  {
    // Copy(buf, io.LimitReader(r, limit))
    var buf: Bytes := [];
    var n := limit;
    while n > 0
      invariant old(r.left) == buf + r.left
      invariant n == limit - |buf| && (if limit >= 0 then n >= 0 else buf == [])
      invariant buf != [] ==> !(r.fails && r.together && r.left == [])
      decreases n
    {
      var chunk, failed := r.Read(n);
      buf := buf + chunk;
      n := n - |chunk|;
      if failed {
        assert buf + [] == buf;
        return Failed;
      }
      if chunk == [] {
        assert buf + [] == buf;
        break;
      }
    }
    if |buf| == limit {
      assert old(r.left)[..limit] == buf && old(r.left)[limit..] == r.left;
      return Streamed(buf);
    }
    assert [] + r.left == r.left;
    return Whole(buf);
  }

  /** A failing body gives an error exactly when the failure comes below the limit, or at a positive limit together
      with the last byte; other bodies are streamed exactly from a limit that is not negative on, cut there, and
      are in memory below it; with a negative limit nothing is read. */
  lemma BufferExactly(left: Bytes, fails: bool, together: bool, limit: int)
    ensures
      var (b, rest) := Buffer(left, fails, together, limit);
      (b == Failed <==> fails && (|left| < limit || (|left| == limit && together && limit > 0))) &&
      (b.Streamed? <==> b != Failed && 0 <= limit <= |left|) &&
      (b.Streamed? ==> |b.head| == limit && left == b.head + rest) &&
      (b.Whole? ==> if limit < 0 then b.data == [] && rest == left else b.data == left && rest == [])
  {
    if 0 <= limit <= |left| {
      assert left == left[..limit] + left[limit..];
    }
  }

  /** The bytes a reader of the answer sees: the buffer, or the head followed by the rest. */
  function Seen(b: Buffered, left: Bytes): Bytes
    requires !b.Failed?
  {
    match b
    case Whole(data) => data
    case Streamed(head) => head + left
  }

  /** Nothing is lost or repeated, whichever way the body goes, exactly when the limit is not negative or
      there was nothing to lose. */
  lemma BufferConserves(left: Bytes, fails: bool, together: bool, limit: int)
    requires !Buffer(left, fails, together, limit).0.Failed?
    ensures
      var (b, rest) := Buffer(left, fails, together, limit);
      Seen(b, rest) == left <==> limit >= 0 || left == []
  {
    if limit >= 0 && |left| >= limit {
      assert left[..limit] + left[limit..] == left;
    }
  }
}
