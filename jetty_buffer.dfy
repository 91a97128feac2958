/**
 * The content buffer of BufferingResponseListener: a ByteBuffer that is null until the
 * first chunk arrives and grows to the next power of two above the needed capacity,
 * never beyond the maximum length.  A chunk that does not fit aborts the response when
 * the bytes held plus the chunk exceed the maximum; whatever fits is still appended.
 * Jetty's BufferUtil is not part of this model: space, ensureCapacity, append and
 * toArray are taken with their documented meaning (room left, reallocate only to grow,
 * copy as many bytes as fit, copy out the bytes held).
 */
module JettyBuffer {
  import opened Wrappers
  import opened JavaText
  import opened JavaInt
  import opened JettyExchange

  /** The buffer field: null, or a capacity and the bytes it holds. */
  datatype BufferState = Unallocated | Allocated(capacity: int, content: seq<byte>)

  /** A buffer holds no more than its capacity, and its capacity never exceeds the maximum length. */
  predicate WellFormed(b: BufferState, maxLength: int)
  {
    0 <= maxLength <= INT_MAX && (b.Allocated? ==> |b.content| <= b.capacity <= maxLength)
  }

  /** BufferUtil.space: the room left, 0 for null. */
  function Space(b: BufferState): int
  {
    if b.Unallocated? then 0 else b.capacity - |b.content|
  }

  /** The bytes held (buffer.remaining()), 0 for null. */
  function Held(b: BufferState): int
  {
    if b.Unallocated? then 0 else |b.content|
  }

  /** getContent: the bytes held; an empty array for null. */
  function ContentOf(b: BufferState): seq<byte>
  {
    if b.Unallocated? then [] else b.content
  }

  /** The capacity test of onContent: the chunk does not fit, and held plus chunk (as an int) exceeds the maximum. */
  predicate Aborts(b: BufferState, length: int, maxLength: int)
  {
    length > Space(b) && Int32(Held(b) + length) > maxLength
  }

  /** min(highestOneBit(required) << 1, maxLength), the required capacity being the chunk plus the old capacity. */
  function NewCapacity(b: BufferState, length: int, maxLength: int): (c: int)
    requires WellFormed(b, maxLength) && 0 <= length <= INT_MAX
    ensures c <= maxLength
  {
    var required := if b.Unallocated? then length else Int32(b.capacity + length);
    Min(ShiftLeft1(HighestOneBit(required)), maxLength)
  }

  /** BufferUtil.ensureCapacity: allocates for null (a negative capacity throws), and reallocates only to grow. */
  function EnsureCapacity(b: BufferState, capacity: int): (r: Result<BufferState>)
    ensures r.Failure? <==> b.Unallocated? && capacity < 0
    ensures r.Failure? ==> r.error.IllegalArgumentException?
    ensures r.Success? ==> ContentOf(r.value) == ContentOf(b) && r.value.Allocated?
    ensures r.Success? && b.Allocated? ==> r.value.capacity == Max(b.capacity, capacity)
    ensures r.Success? && b.Unallocated? ==> r.value.capacity == capacity
  {
    match b
    case Unallocated =>
      if capacity < 0 then Failure(IllegalArgumentException("capacity < 0")) else Success(Allocated(capacity, []))
    case Allocated(c, content) =>
      if c >= capacity then Success(b) else Success(Allocated(capacity, content))
  }

  /** BufferUtil.append: copies as many bytes of the chunk as fit; a null buffer is dereferenced. */
  function Append(b: BufferState, chunk: seq<byte>): (r: Result<BufferState>)
    requires b.Allocated? ==> |b.content| <= b.capacity
    ensures r.Failure? <==> b.Unallocated?
    ensures r.Failure? ==> r.error == NullPointerException
    ensures r.Success? ==> (b.Allocated? && r.value.Allocated? && r.value.capacity == b.capacity &&
                            r.value.content == b.content + chunk[..Min(|chunk|, b.capacity - |b.content|)])
  {
    match b
    case Unallocated => Failure(NullPointerException)
    case Allocated(c, content) => Success(Allocated(c, content + chunk[..Min(|chunk|, c - |content|)]))
  }

  /** What onContent does to the buffer: grow when the chunk does not fit, then append. */
  function Buffered(b: BufferState, chunk: seq<byte>, maxLength: int): (r: Result<BufferState>)
    requires WellFormed(b, maxLength) && |chunk| <= INT_MAX
    ensures r.Success? ==> WellFormed(r.value, maxLength) && r.value.Allocated?
    ensures r.Success? ==> exists n :: 0 <= n <= |chunk| && ContentOf(r.value) == ContentOf(b) + chunk[..n]
    ensures r.Failure? <==> b.Unallocated? && (|chunk| == 0 || NewCapacity(b, |chunk|, maxLength) < 0)
  {
    var grown := if |chunk| > Space(b) then EnsureCapacity(b, NewCapacity(b, |chunk|, maxLength)) else Success(b);
    if grown.Failure? then grown
    else
      var r := Append(grown.value, chunk);
      assert r.Success? ==>
        ContentOf(r.value) == ContentOf(b) + chunk[..Min(|chunk|, grown.value.capacity - |grown.value.content|)];
      r
  }

  /** The bytes of the chunks, in order. */
  function Flatten(chunks: seq<seq<byte>>): seq<byte>
  {
    if |chunks| == 0 then [] else Flatten(chunks[..|chunks| - 1]) + chunks[|chunks| - 1]
  }

  predicate ChunksAreInts(chunks: seq<seq<byte>>)
  {
    forall i :: 0 <= i < |chunks| ==> |chunks[i]| <= INT_MAX
  }

  /** The buffer after the chunks, from null; the first exception ends it. */
  function BufferedAll(chunks: seq<seq<byte>>, maxLength: int): (r: Result<BufferState>)
    requires 0 <= maxLength <= INT_MAX && ChunksAreInts(chunks)
    ensures r.Success? ==> WellFormed(r.value, maxLength)
  {
    if |chunks| == 0 then Success(Unallocated)
    else
      var prev := BufferedAll(chunks[..|chunks| - 1], maxLength);
      if prev.Failure? then prev else Buffered(prev.value, chunks[|chunks| - 1], maxLength)
  }

  /** Whether some chunk's capacity test aborted the response. */
  predicate AbortedDuring(chunks: seq<seq<byte>>, maxLength: int)
    requires 0 <= maxLength <= INT_MAX && ChunksAreInts(chunks)
  {
    |chunks| > 0 &&
    var prev := BufferedAll(chunks[..|chunks| - 1], maxLength);
    (AbortedDuring(chunks[..|chunks| - 1], maxLength) ||
     (prev.Success? && Aborts(prev.value, |chunks[|chunks| - 1]|, maxLength)))
  }

  /** The buffer holds the first maxLength bytes of the body, and is full once the body is longer. */
  ghost predicate HoldsPrefix(b: BufferState, body: seq<byte>, maxLength: int)
  {
    0 <= maxLength && (b.Unallocated? <==> |body| == 0) &&
    ContentOf(b) == body[..Min(|body|, maxLength)] &&
    (|body| > maxLength ==> b.Allocated? && b.capacity == maxLength)
  }

  /** Below 2^30 the new capacity covers the bytes held plus the chunk, up to the maximum. */
  lemma NewCapacityCovers(b: BufferState, length: int, maxLength: int)
    requires WellFormed(b, maxLength) && 0 < length && length + maxLength < 0x4000_0000
    ensures NewCapacity(b, length, maxLength) >= Min(Held(b) + length, maxLength)
    ensures Held(b) + length > maxLength ==> NewCapacity(b, length, maxLength) == maxLength
  {
    DoubledHighestBit(if b.Unallocated? then length else b.capacity + length);
  }

  /**
   * For a non-empty chunk well below 2^30 bytes, onContent appends as much of it as the
   * maximum leaves room for, fills the buffer to the maximum when that runs out, and
   * aborts exactly then.
   */
  lemma BufferedUpToMax(b: BufferState, chunk: seq<byte>, maxLength: int)
    requires WellFormed(b, maxLength) && 0 < |chunk| && |chunk| + maxLength < 0x4000_0000
    ensures Buffered(b, chunk, maxLength).Success?
    ensures ContentOf(Buffered(b, chunk, maxLength).value) == ContentOf(b) + chunk[..Min(|chunk|, maxLength - Held(b))]
    ensures Held(b) + |chunk| > maxLength ==> Buffered(b, chunk, maxLength).value.capacity == maxLength
    ensures Aborts(b, |chunk|, maxLength) <==> Held(b) + |chunk| > maxLength
  {
    if |chunk| > Space(b) {
      NewCapacityCovers(b, |chunk|, maxLength);
    }
  }

  /** Cutting a body at m, then the room left of the next chunk, is cutting the longer body at m. */
  lemma PrefixOfAppend(body: seq<byte>, chunk: seq<byte>, m: int)
    requires 0 <= m
    ensures body[..Min(|body|, m)] + chunk[..Min(|chunk|, m - Min(|body|, m))] == (body + chunk)[..Min(|body| + |chunk|, m)]
  {
    if |body| >= m {
      assert chunk[..0] == [];
    }
  }

  /** One chunk keeps the buffer a prefix of the body, and aborts exactly when the body passes the maximum. */
  lemma BufferedKeepsPrefix(b: BufferState, body: seq<byte>, chunk: seq<byte>, maxLength: int)
    requires WellFormed(b, maxLength) && HoldsPrefix(b, body, maxLength)
    requires 0 < |chunk| && |chunk| + maxLength < 0x4000_0000
    ensures Buffered(b, chunk, maxLength).Success?
    ensures HoldsPrefix(Buffered(b, chunk, maxLength).value, body + chunk, maxLength)
    ensures Aborts(b, |chunk|, maxLength) <==> |body| + |chunk| > maxLength
  {
    BufferedUpToMax(b, chunk, maxLength);
    PrefixOfAppend(body, chunk, maxLength);
  }

  /**
   * For non-empty chunks well below 2^30 bytes: the buffer ends up holding the first
   * maxLength bytes of the body, and the response is aborted exactly when the body is
   * longer than maxLength.
   */
  lemma {:induction false} BufferedAllIsPrefix(chunks: seq<seq<byte>>, maxLength: int)
    requires 0 <= maxLength <= INT_MAX
    requires forall i :: 0 <= i < |chunks| ==> 0 < |chunks[i]| && |chunks[i]| + maxLength < 0x4000_0000
    ensures BufferedAll(chunks, maxLength).Success?
    ensures HoldsPrefix(BufferedAll(chunks, maxLength).value, Flatten(chunks), maxLength)
    ensures ContentOf(BufferedAll(chunks, maxLength).value) == Flatten(chunks)[..Min(|Flatten(chunks)|, maxLength)]
    ensures AbortedDuring(chunks, maxLength) <==> |Flatten(chunks)| > maxLength
  {
    if |chunks| > 0 {
      var init := chunks[..|chunks| - 1];
      assert forall i :: 0 <= i < |init| ==> init[i] == chunks[i];
      BufferedAllIsPrefix(init, maxLength);
      BufferedKeepsPrefix(BufferedAll(init, maxLength).value, Flatten(init), chunks[|chunks| - 1], maxLength);
    }
  }

  /**
   * Past 2^30 bytes, with a maximum of MAX_VALUE, the doubled capacity wraps negative:
   * the buffer stops growing and a further chunk is dropped without an abort.
   */
  lemma GrowthStopsAtOneGiB(content: seq<byte>, chunk: seq<byte>)
    requires |content| == 0x4000_0000 && 0 < |chunk| < 0x4000_0000
    ensures !Aborts(Allocated(0x4000_0000, content), |chunk|, INT_MAX)
    ensures Buffered(Allocated(0x4000_0000, content), chunk, INT_MAX) == Success(Allocated(0x4000_0000, content))
  {
    DoubledHighestBitWraps(0x4000_0000 + |chunk|);
    assert chunk[..0] == [];
    assert content + [] == content;
  }

  /** The listener's buffer field, as an array and the count of bytes held. */
  class ContentBuffer {
    const maxLength: int
    var buffer: array?<byte>
    var limit: nat

    ghost predicate Valid()
      reads this, buffer
    {
      0 <= maxLength <= INT_MAX &&
      (buffer == null ==> limit == 0) &&
      (buffer != null ==> limit <= buffer.Length <= maxLength)
    }

    function State(): (b: BufferState)
      reads this, buffer
      requires Valid()
      ensures WellFormed(b, maxLength)
    {
      if buffer == null then Unallocated else Allocated(buffer.Length, buffer[..limit])
    }

    constructor (maxLength: int)
      requires 0 <= maxLength <= INT_MAX
      ensures Valid() && this.maxLength == maxLength && State() == Unallocated
    {
      this.maxLength := maxLength;
      buffer := null;
      limit := 0;
    }

    /** getContent: a fresh array of the bytes held. */
    method GetContent() returns (a: array<byte>)
      requires Valid()
      ensures fresh(a) && a[..] == ContentOf(State())
    {
      if buffer == null {
        a := new byte[0];
      } else {
        var held := buffer[..limit];
        a := new byte[|held|](i requires 0 <= i < |held| => held[i]);
      }
    }

    /** onContent after the counters: the capacity test and abort, growth, then append. */
    method Add(response: JettyResponse, chunk: seq<byte>) returns (thrown: Option<Throwable>)
      requires Valid() && |chunk| <= INT_MAX
      modifies this, buffer, response
      ensures Valid()
      ensures response.abortCause ==
        if Aborts(old(State()), |chunk|, maxLength) && old(response.abortCause).None?
        then Some(CapacityReached(maxLength)) else old(response.abortCause)
      ensures var r := Buffered(old(State()), chunk, maxLength);
        if r.Success? then thrown.None? && State() == r.value else thrown == Some(r.error) && State() == old(State())
    {
      var length := |chunk|;
      var space := if buffer == null then 0 else buffer.Length - limit;
      var remaining := if buffer == null then 0 else limit;
      ghost var before := State();
      if length > space && Int32(remaining + length) > maxLength {
        var _ := response.Abort(CapacityReached(maxLength));
      }
      assert Valid() && State() == before;
      thrown := Store(chunk);
    }

    /** The buffer part of onContent: grow when the chunk does not fit, then append. */
    method Store(chunk: seq<byte>) returns (thrown: Option<Throwable>)
      requires Valid() && |chunk| <= INT_MAX
      modifies this, buffer
      ensures Valid()
      ensures var r := Buffered(old(State()), chunk, maxLength);
        if r.Success? then thrown.None? && State() == r.value else thrown == Some(r.error) && State() == old(State())
    {
      var length := |chunk|;
      var space := if buffer == null then 0 else buffer.Length - limit;
      if length > space {
        var newCapacity := NewCapacity(State(), length, maxLength);
        thrown := Grow(newCapacity);
        if thrown.Some? {
          return;
        }
      }
      thrown := AppendChunk(chunk);
    }

    /** BufferUtil.ensureCapacity on the field. */
    method Grow(capacity: int) returns (thrown: Option<Throwable>)
      requires Valid() && capacity <= maxLength
      modifies this
      ensures Valid() && (buffer == old(buffer) || fresh(buffer))
      ensures EnsureCapacity(old(State()), capacity).Success? ==>
        thrown.None? && State() == EnsureCapacity(old(State()), capacity).value
      ensures EnsureCapacity(old(State()), capacity).Failure? ==>
        thrown == Some(EnsureCapacity(old(State()), capacity).error) && State() == old(State())
    {
      thrown := None;
      if buffer == null {
        if capacity < 0 {
          thrown := Some(IllegalArgumentException("capacity < 0"));
        } else {
          buffer := new byte[capacity];
        }
      } else if buffer.Length < capacity {
        var current := buffer;
        var n := limit;
        var grown := new byte[capacity];
        var i := 0;
        while i < n
          invariant 0 <= i <= n
          invariant buffer == current && limit == n
          invariant grown[..i] == current[..i]
        {
          grown[i] := current[i];
          i := i + 1;
        }
        buffer := grown;
      }
    }

    /** BufferUtil.append on the field. */
    method AppendChunk(chunk: seq<byte>) returns (thrown: Option<Throwable>)
      requires Valid()
      modifies this, buffer
      ensures Valid()
      ensures Append(old(State()), chunk).Success? ==>
        thrown.None? && State() == Append(old(State()), chunk).value
      ensures Append(old(State()), chunk).Failure? ==>
        thrown == Some(NullPointerException) && State() == old(State())
    {
      if buffer == null {
        thrown := Some(NullPointerException);
        return;
      }
      thrown := None;
      var a := buffer;
      var start := limit;
      var n := Min(|chunk|, a.Length - start);
      ghost var before := a[..start];
      var j := 0;
      while j < n
        invariant 0 <= j <= n
        invariant buffer == a && limit == start
        invariant a[..start + j] == before + chunk[..j]
      {
        a[start + j] := chunk[j];
        assert a[..start + j + 1] == a[..start + j] + [chunk[j]];
        assert chunk[..j + 1] == chunk[..j] + [chunk[j]];
        j := j + 1;
      }
      limit := start + n;
    }
  }
}
