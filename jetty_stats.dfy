/**
 * StatsListener: the Jetty request and response listener that stamps each milestone with
 * a clock tick and counts headers, chunks and bytes.  The clock (System.nanoTime) is an
 * argument of every handler.  The listener's own numbers form one record; the response
 * chunk count and body size are shared counter objects, handed on live inside Stats.
 */
module JettyStats {
  import opened Wrappers
  import opened HttpValues
  import opened HeaderFields
  import opened JettyExchange

  /** size(fields): name length + 2 (for ": ") + value length per field, a null value counting 0. */
  function FieldsSize(fields: seq<Field>): int
  {
    if |fields| == 0 then 0
    else
      var f := fields[|fields| - 1];
      FieldsSize(fields[..|fields| - 1]) + |f.name| + 2 + (if f.value.Some? then |f.value.value| else 0)
  }

  /** The loop of size(HttpFields). */
  method Size(fields: seq<Field>) returns (size: int)
    ensures size == FieldsSize(fields)
  {
    size := 0;
    var i := 0;
    while i < |fields|
      invariant 0 <= i <= |fields|
      invariant size == FieldsSize(fields[..i])
    {
      assert fields[..i + 1][..i] == fields[..i];
      size := size + |fields[i].name| + 2;
      size := size + (if fields[i].value.None? then 0 else |fields[i].value.value|);
      i := i + 1;
    }
    assert fields[..i] == fields;
  }

  /** Every field counts at least its two separator bytes and its name. */
  lemma {:induction false} FieldsSizeBounds(fields: seq<Field>)
    ensures FieldsSize(fields) >= 2 * |fields|
    ensures forall i :: 0 <= i < |fields| ==> FieldsSize(fields) >= |fields[i].name| + 2
  {
    if |fields| > 0 {
      var init := fields[..|fields| - 1];
      FieldsSizeBounds(init);
      forall i | 0 <= i < |fields| - 1
        ensures FieldsSize(fields) >= |fields[i].name| + 2
      {
        assert init[i] == fields[i];
      }
    }
  }

  /** The size of two field lists one after the other is the sum of their sizes. */
  lemma {:induction false} FieldsSizeAppend(a: seq<Field>, b: seq<Field>)
    ensures FieldsSize(a + b) == FieldsSize(a) + FieldsSize(b)
    decreases |b|
  {
    if |b| == 0 {
      assert a + b == a;
    } else {
      assert (a + b)[..|a + b| - 1] == a + b[..|b| - 1];
      FieldsSizeAppend(a, b[..|b| - 1]);
    }
  }

  function Sum(chunks: seq<int>): int
  {
    if |chunks| == 0 then 0 else Sum(chunks[..|chunks| - 1]) + chunks[|chunks| - 1]
  }

  /** The listener's ticks and numbers; the first-header, last-header and content ticks start at 0. */
  datatype StatsFields = StatsFields(
    requestQueuedTick: int,
    requestBeginTick: int,
    requestSentTick: int,
    requestCompleteTick: int,
    responseStatusReceivedTick: int,
    firstHeaderReceivedTick: int,
    lastHeaderReceivedTick: int,
    responseContentStartedTick: int,
    responseCompleteTick: int,
    requestHeaderCount: int,
    requestHeaderSize: int,
    requestChunkCount: int,
    requestBodySize: int,
    responseHeaderCount: int,
    responseHeaderSize: int)

  function InitialFields(): StatsFields
  {
    StatsFields(0, 0, 0, 0, 0, 0, 0, 0, 0, 0, 0, 0, 0, 0, 0)
  }

  class StatsListener {
    var fields: StatsFields
    const responseChunkCount: AtomicCounter
    const responseBodySize: AtomicCounter
    /** The lengths of the request and response chunks seen so far, in order. */
    ghost var requestChunks: seq<int>
    ghost var responseChunks: seq<int>

    /** The chunk counters agree with the chunks seen. */
    ghost predicate Valid()
      reads this, responseChunkCount, responseBodySize
    {
      responseChunkCount != responseBodySize &&
      fields.requestChunkCount == |requestChunks| && fields.requestBodySize == Sum(requestChunks) &&
      responseChunkCount.value == |responseChunks| && responseBodySize.value == Sum(responseChunks)
    }

    constructor ()
      ensures Valid() && fields == InitialFields()
      ensures fresh(responseChunkCount) && fresh(responseBodySize)
      ensures requestChunks == [] && responseChunks == []
    {
      fields := InitialFields();
      responseChunkCount := new AtomicCounter(0);
      responseBodySize := new AtomicCounter(0);
      requestChunks := [];
      responseChunks := [];
    }

    method OnQueued(tick: int)
      modifies this
      ensures fields == old(fields).(requestQueuedTick := tick)
      ensures requestChunks == old(requestChunks) && responseChunks == old(responseChunks)
    {
      fields := fields.(requestQueuedTick := tick);
    }

    method OnRequestBegin(tick: int)
      modifies this
      ensures fields == old(fields).(requestBeginTick := tick)
      ensures requestChunks == old(requestChunks) && responseChunks == old(responseChunks)
    {
      fields := fields.(requestBeginTick := tick);
    }

    /** onHeaders(Request): the count and size are overwritten, not accumulated. */
    method OnRequestHeaders(headers: seq<Field>)
      modifies this
      ensures fields == old(fields).(requestHeaderCount := |headers|, requestHeaderSize := FieldsSize(headers))
      ensures requestChunks == old(requestChunks) && responseChunks == old(responseChunks)
    {
      var size := Size(headers);
      fields := fields.(requestHeaderCount := |headers|, requestHeaderSize := size);
    }

    method OnCommit(tick: int)
      modifies this
      ensures fields == old(fields).(requestSentTick := tick)
      ensures requestChunks == old(requestChunks) && responseChunks == old(responseChunks)
    {
      fields := fields.(requestSentTick := tick);
    }

    /** onContent(Request): one more chunk, and its length added to the body size. */
    method OnRequestContent(remaining: nat)
      requires Valid()
      modifies this
      ensures Valid()
      ensures fields == old(fields).(requestChunkCount := old(fields.requestChunkCount) + 1,
                                     requestBodySize := old(fields.requestBodySize) + remaining)
      ensures requestChunks == old(requestChunks) + [remaining] && responseChunks == old(responseChunks)
    {
      fields := fields.(requestChunkCount := fields.requestChunkCount + 1);
      if remaining > 0 {
        fields := fields.(requestBodySize := fields.requestBodySize + remaining);
      }
      requestChunks := requestChunks + [remaining];
      assert requestChunks[..|requestChunks| - 1] == old(requestChunks);
    }

    /** onSuccess(Request) and onFailure(Request, _) stamp the same completion tick. */
    method OnRequestComplete(tick: int)
      modifies this
      ensures fields == old(fields).(requestCompleteTick := tick)
      ensures requestChunks == old(requestChunks) && responseChunks == old(responseChunks)
    {
      fields := fields.(requestCompleteTick := tick);
    }

    method OnResponseBegin(tick: int)
      modifies this
      ensures fields == old(fields).(responseStatusReceivedTick := tick)
      ensures requestChunks == old(requestChunks) && responseChunks == old(responseChunks)
    {
      fields := fields.(responseStatusReceivedTick := tick);
    }

    /** onHeader: only the first header stamps its tick; the header is always accepted. */
    method OnHeader(tick: int, field: Field) returns (accept: bool)
      modifies this
      ensures accept
      ensures fields == old(fields).(firstHeaderReceivedTick :=
        if old(fields.firstHeaderReceivedTick) == 0 then tick else old(fields.firstHeaderReceivedTick))
      ensures requestChunks == old(requestChunks) && responseChunks == old(responseChunks)
    {
      if fields.firstHeaderReceivedTick == 0 {
        fields := fields.(firstHeaderReceivedTick := tick);
      }
      accept := true;
    }

    /** onHeaders(Response): the last-header tick, count and size are overwritten. */
    method OnResponseHeaders(tick: int, headers: seq<Field>)
      modifies this
      ensures fields == old(fields).(lastHeaderReceivedTick := tick, responseHeaderCount := |headers|,
                                     responseHeaderSize := FieldsSize(headers))
      ensures requestChunks == old(requestChunks) && responseChunks == old(responseChunks)
    {
      var size := Size(headers);
      fields := fields.(lastHeaderReceivedTick := tick, responseHeaderCount := |headers|, responseHeaderSize := size);
    }

    /** onContent(Response): both counters advance; only the first chunk stamps the content tick. */
    method OnResponseContent(tick: int, remaining: nat)
      requires Valid()
      modifies this, responseChunkCount, responseBodySize
      ensures Valid()
      ensures responseChunkCount.value == old(responseChunkCount.value) + 1
      ensures responseBodySize.value == old(responseBodySize.value) + remaining
      ensures fields == old(fields).(responseContentStartedTick :=
        if old(fields.responseContentStartedTick) == 0 then tick else old(fields.responseContentStartedTick))
      ensures responseChunks == old(responseChunks) + [remaining] && requestChunks == old(requestChunks)
    {
      var _ := responseChunkCount.AddAndGet(1);
      var _ := responseBodySize.AddAndGet(remaining);
      if fields.responseContentStartedTick == 0 {
        fields := fields.(responseContentStartedTick := tick);
      }
      responseChunks := responseChunks + [remaining];
      assert responseChunks[..|responseChunks| - 1] == old(responseChunks);
    }

    /** onSuccess(Response) and onFailure(Response, _) stamp the same completion tick. */
    method OnResponseComplete(tick: int)
      modifies this
      ensures fields == old(fields).(responseCompleteTick := tick)
      ensures requestChunks == old(requestChunks) && responseChunks == old(responseChunks)
    {
      fields := fields.(responseCompleteTick := tick);
    }

    /** timing(): every milestone measured from the queued tick, negative values included. */
    function Timing(): (t: Timing)
      reads this
      ensures t.timeToRequestStart == fields.requestBeginTick - fields.requestQueuedTick
      ensures t.timeToRequestComplete == fields.requestCompleteTick - fields.requestQueuedTick
      ensures t.timeToResponseStatus == fields.responseStatusReceivedTick - fields.requestQueuedTick
      ensures t.timeToFirstResponseHeader == fields.firstHeaderReceivedTick - fields.requestQueuedTick
      ensures t.timeToLastResponseHeader == Some(fields.lastHeaderReceivedTick - fields.requestQueuedTick)
      ensures t.timeToFirstResponseContent == fields.responseContentStartedTick - fields.requestQueuedTick
      ensures t.timeToCompleteResponse == fields.responseCompleteTick - fields.requestQueuedTick
    {
      var f := fields;
      var q := f.requestQueuedTick;
      HttpValues.Timing.Timing(f.requestBeginTick - q, f.requestCompleteTick - q, f.responseStatusReceivedTick - q,
                                f.firstHeaderReceivedTick - q, Some(f.lastHeaderReceivedTick - q),
                                f.responseContentStartedTick - q, f.responseCompleteTick - q)
    }

    /** stats(): the same durations, the counts and sizes, and the two live counters. */
    function Stats(): (s: Stats)
      reads this
      ensures s.timing == Timing()
      ensures s.responseChunkCount == responseChunkCount && s.responseBodySize == responseBodySize
    {
      var f := fields;
      var q := f.requestQueuedTick;
      NewStats(f.requestBeginTick - q, f.requestCompleteTick - q, f.responseStatusReceivedTick - q,
               f.firstHeaderReceivedTick - q, f.lastHeaderReceivedTick - q,
               f.responseContentStartedTick - q, f.responseCompleteTick - q,
               f.requestHeaderCount, f.requestHeaderSize, f.requestChunkCount, f.requestBodySize,
               f.responseHeaderCount, f.responseHeaderSize, responseChunkCount, responseBodySize)
    }
  }

  /** Moving every tick by the same amount changes no duration: each is measured from the queued tick. */
  lemma TimingIsRelative(f: StatsFields, d: int, l: StatsListener, m: StatsListener)
    requires l.fields == f
    requires m.fields == f.(requestQueuedTick := f.requestQueuedTick + d, requestBeginTick := f.requestBeginTick + d,
                            requestCompleteTick := f.requestCompleteTick + d,
                            responseStatusReceivedTick := f.responseStatusReceivedTick + d,
                            firstHeaderReceivedTick := f.firstHeaderReceivedTick + d,
                            lastHeaderReceivedTick := f.lastHeaderReceivedTick + d,
                            responseContentStartedTick := f.responseContentStartedTick + d,
                            responseCompleteTick := f.responseCompleteTick + d)
    ensures l.Timing() == m.Timing()
  {
  }
}
