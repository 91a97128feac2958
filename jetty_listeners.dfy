/**
 * The Jetty response listeners that turn a Jetty exchange into a Response and complete
 * a future with it.  Java's inheritance chain (StatsListener, BaseResponseListener,
 * BufferingResponseListener and its subclasses) becomes composition: each listener
 * holds the StatsListener whose handlers it inherits, and the Jetty client delivers the
 * inherited events to that object directly.
 */
module JettyListeners {
  import opened Wrappers
  import opened JavaText
  import opened JavaInt
  import opened NamedValues
  import opened HttpValues
  import opened Responses
  import opened Futures
  import opened HeaderFields
  import opened JettyExchange
  import opened JettyStats
  import opened JettyBuffer

  /**
   * The test of BaseResponseListener.onHeaders: the announced Content-Length exceeds the
   * maximum.  Truncating listeners and HEAD requests count the length as 0.
   */
  predicate HeadersExceed(response: JettyResponse, truncateOnLimit: bool, maxLength: int)
  {
    var length := if truncateOnLimit || response.requestMethod == HEAD then 0 else response.contentLength;
    length > maxLength
  }

  /** The result of onComplete is a response (not a failure): no failure, or a tolerated truncation. */
  predicate CompletesNormally(failure: Option<Throwable>, truncateOnLimit: bool)
  {
    failure.None? || (truncateOnLimit && failure.value.CapacityReached?)
  }

  /** The attributes fromResult starts with: "truncated" = TRUE for a truncated response. */
  function TruncatedAttributes(truncated: bool): (a: Option<map<string, Attr>>)
    ensures truncated <==> a.Some?
    ensures truncated ==> a.value == map["truncated" := Flag(true)]
  {
    if truncated then Some(map["truncated" := Flag(true)]) else None
  }

  /**
   * fromResult of the three listeners: the status, every header field, the body when
   * there is one, the listener's stats or timing, and the truncated flag.
   */
  method FromResult(response: JettyResponse, body: array?<byte>, stats: Option<Stats>, timing: Option<Timing>,
                    truncated: bool) returns (builder: ResponseBuilder)
    ensures fresh(builder)
    ensures builder.statusCode == response.status
    ensures builder.headers == AddedFields(map[], response.headers)
    ensures builder.body == body && builder.stats == stats && builder.timing == timing
    ensures builder.attributes == TruncatedAttributes(truncated)
  {
    builder := new ResponseBuilder();
    builder.SetStatusCode(response.status);
    AddFields(builder, response.headers);
    if body != null {
      builder.SetBody(body);
    }
    if stats.Some? {
      builder.SetStats(stats.value);
    }
    if timing.Some? {
      builder.SetTiming(timing.value);
    }
    if truncated {
      builder.AddAttribute("truncated", Flag(true));
    }
  }

  /** The response a listener completes its future with. */
  ghost predicate Built(r: Response, response: JettyResponse, body: Option<seq<byte>>, stats: Option<Stats>,
                        timing: Option<Timing>, attributes: Option<map<string, Attr>>)
    reads r
  {
    r.statusCode == response.status && r.headers == AddedFields(map[], response.headers) &&
    r.body == Held(body) && r.stats == stats && r.timing == timing && r.attributes == attributes
  }

  /** A future offered a response by onComplete: set if it was pending, otherwise untouched. */
  ghost predicate OfferedResponse(before: Outcome, future: ResponseFuture, response: JettyResponse,
                                  body: Option<seq<byte>>, stats: Option<Stats>, timing: Option<Timing>,
                                  attributes: Option<map<string, Attr>>)
    reads future, if future.outcome.Completed? then {future.outcome.response} else {}
  {
    if before.Pending? then
      future.outcome.Completed? && Built(future.outcome.response, response, body, stats, timing, attributes)
    else future.outcome == before
  }

  /**
   * BufferingResponseListener with the completion of ListenableFutureResponseListener,
   * its one concrete subclass here: the response or the failure goes to the future.
   */
  class BufferingResponseListener {
    const maxLength: int
    const truncateOnLimit: bool
    const stats: StatsListener
    const content: ContentBuffer
    const future: ResponseFuture

    ghost predicate Valid()
      reads this, stats, stats.responseChunkCount, stats.responseBodySize, content, content.buffer
    {
      stats.Valid() && content.Valid() && content.maxLength == maxLength
    }

    /** The constructor for a maximum already known not to be negative. */
    constructor ListenableFutureResponseListener(future: ResponseFuture, maxLength: int, truncateOnLimit: bool)
      requires 0 <= maxLength <= INT_MAX
      ensures Valid() && fresh(stats) && fresh(content)
      ensures this.future == future && this.maxLength == maxLength && this.truncateOnLimit == truncateOnLimit
      ensures stats.fields == InitialFields() && content.State() == Unallocated
    {
      this.maxLength := maxLength;
      this.truncateOnLimit := truncateOnLimit;
      this.future := future;
      stats := new StatsListener();
      content := new ContentBuffer(maxLength);
    }

    /** BaseResponseListener.onHeaders: the stats, then the abort when the Content-Length exceeds the maximum. */
    method OnHeaders(response: JettyResponse, tick: int)
      modifies stats, response
      ensures stats.fields == old(stats.fields).(lastHeaderReceivedTick := tick,
        responseHeaderCount := |response.headers|, responseHeaderSize := FieldsSize(response.headers))
      ensures stats.requestChunks == old(stats.requestChunks) && stats.responseChunks == old(stats.responseChunks)
      ensures response.abortCause ==
        if HeadersExceed(response, truncateOnLimit, maxLength) && old(response.abortCause).None?
        then Some(CapacityReached(maxLength)) else old(response.abortCause)
    {
      stats.OnResponseHeaders(tick, response.headers);
      var length := response.contentLength;
      if truncateOnLimit || response.requestMethod == HEAD {
        length := 0;
      }
      if length > maxLength {
        var _ := response.Abort(CapacityReached(maxLength));
      }
    }

    /** onContent: the stats counters, then the capacity test and the buffer. */
    method OnContent(response: JettyResponse, tick: int, chunk: seq<byte>) returns (thrown: Option<Throwable>)
      requires Valid() && |chunk| <= INT_MAX
      modifies stats, stats.responseChunkCount, stats.responseBodySize, content, content.buffer, response
      ensures Valid()
      ensures stats.responseChunks == old(stats.responseChunks) + [|chunk|]
      ensures stats.fields == old(stats.fields).(responseContentStartedTick :=
        if old(stats.fields.responseContentStartedTick) == 0 then tick else old(stats.fields.responseContentStartedTick))
      ensures response.abortCause ==
        if Aborts(old(content.State()), |chunk|, maxLength) && old(response.abortCause).None?
        then Some(CapacityReached(maxLength)) else old(response.abortCause)
      ensures var r := Buffered(old(content.State()), chunk, maxLength);
        if r.Success? then thrown.None? && content.State() == r.value
        else thrown == Some(r.error) && content.State() == old(content.State())
    {
      stats.OnResponseContent(tick, |chunk|);
      thrown := content.Add(response, chunk);
    }

    /** getContent. */
    method GetContent() returns (a: array<byte>)
      requires Valid()
      ensures fresh(a) && a[..] == ContentOf(content.State())
    {
      a := content.GetContent();
    }

    /**
     * onComplete: a response with the buffered content and the stats when there is no
     * failure or the failure is a tolerated truncation (then marked truncated);
     * otherwise the failure.
     */
    method OnComplete(response: JettyResponse, failure: Option<Throwable>)
      requires Valid()
      modifies future
      ensures CompletesNormally(failure, truncateOnLimit) ==>
        OfferedResponse(old(future.outcome), future, response, Some(ContentOf(content.State())),
                        Some(stats.Stats()), None, TruncatedAttributes(failure.Some?))
      ensures !CompletesNormally(failure, truncateOnLimit) ==>
        future.outcome == if old(future.outcome).Pending? then Failed(failure.value) else old(future.outcome)
    {
      if failure.None? || (truncateOnLimit && failure.value.CapacityReached?) {
        var body := GetContent();
        var builder := FromResult(response, body, Some(stats.Stats()), None, failure.Some?);
        var r := builder.Create();
        var _ := future.Set(r);
      } else {
        var _ := future.SetException(failure.value);
      }
    }
  }

  /** new ListenableFutureResponseListener(...): a negative maximum is refused. */
  method NewListenableFutureResponseListener(future: ResponseFuture, maxResponseBytes: int, truncateOnLimit: bool)
    returns (r: Result<BufferingResponseListener>)
    requires IsInt(maxResponseBytes)
    ensures maxResponseBytes < 0 <==> r.Failure?
    ensures r.Failure? ==> r.error == IllegalArgumentException("Invalid max length " + IntToString(maxResponseBytes))
    ensures r.Success? ==> (fresh(r.value) && r.value.Valid() && r.value.future == future &&
                            r.value.maxLength == maxResponseBytes && r.value.truncateOnLimit == truncateOnLimit &&
                            r.value.content.State() == Unallocated && r.value.stats.fields == InitialFields())
  {
    if maxResponseBytes < 0 {
      return Failure(IllegalArgumentException("Invalid max length " + IntToString(maxResponseBytes)));
    }
    var l := new BufferingResponseListener.ListenableFutureResponseListener(future, maxResponseBytes, truncateOnLimit);
    r := Success(l);
  }

  /** The ticks TimingListener keeps for itself; the content tick starts at 0. */
  datatype TimingTicks = TimingTicks(
    requestQueuedTick: int,
    requestSentTick: int,
    requestCompleteTick: int,
    responseStatusReceivedTick: int,
    firstHeaderReceivedTick: int,
    responseContentStartedTick: int,
    responseCompleteTick: int)

  /**
   * TimingListener: a buffering listener with its own ticks, measured from the sent
   * tick except the first, which is the time from queued to sent.  Its request begin,
   * headers and content handlers do nothing.  Its abstract completion goes to a future.
   */
  class TimingListener {
    const base: BufferingResponseListener
    var ticks: TimingTicks

    ghost predicate Valid()
      reads this, base, base.stats, base.stats.responseChunkCount, base.stats.responseBodySize,
        base.content, base.content.buffer
    {
      base.Valid()
    }

    constructor (base: BufferingResponseListener)
      ensures this.base == base && ticks == TimingTicks(0, 0, 0, 0, 0, 0, 0)
    {
      this.base := base;
      ticks := TimingTicks(0, 0, 0, 0, 0, 0, 0);
    }

    method OnQueued(tick: int)
      modifies this
      ensures ticks == old(ticks).(requestQueuedTick := tick)
    {
      ticks := ticks.(requestQueuedTick := tick);
    }

    method OnCommit(tick: int)
      modifies this
      ensures ticks == old(ticks).(requestSentTick := tick)
    {
      ticks := ticks.(requestSentTick := tick);
    }

    /** onSuccess(Request) and onFailure(Request, _). */
    method OnRequestComplete(tick: int)
      modifies this
      ensures ticks == old(ticks).(requestCompleteTick := tick)
    {
      ticks := ticks.(requestCompleteTick := tick);
    }

    method OnResponseBegin(tick: int)
      modifies this
      ensures ticks == old(ticks).(responseStatusReceivedTick := tick)
    {
      ticks := ticks.(responseStatusReceivedTick := tick);
    }

    /** onHeader: unlike StatsListener, every header overwrites the first-header tick. */
    method OnHeader(tick: int, field: Field) returns (accept: bool)
      modifies this
      ensures accept && ticks == old(ticks).(firstHeaderReceivedTick := tick)
    {
      ticks := ticks.(firstHeaderReceivedTick := tick);
      accept := true;
    }

    /** onHeader corrected: only the first header stamps its tick, as StatsListener's onHeader does. */
    method OnHeaderOnce(tick: int, field: Field) returns (accept: bool)
      modifies this
      ensures accept && ticks == old(ticks).(firstHeaderReceivedTick :=
        if old(ticks.firstHeaderReceivedTick) == 0 then tick else old(ticks.firstHeaderReceivedTick))
    {
      if ticks.firstHeaderReceivedTick == 0 {
        ticks := ticks.(firstHeaderReceivedTick := tick);
      }
      accept := true;
    }

    /** onContent: the first chunk stamps the content tick, then the buffering listener's onContent. */
    method OnContent(response: JettyResponse, tick: int, chunk: seq<byte>) returns (thrown: Option<Throwable>)
      requires Valid() && |chunk| <= INT_MAX
      modifies this, base.stats, base.stats.responseChunkCount, base.stats.responseBodySize,
        base.content, base.content.buffer, response
      ensures Valid()
      ensures ticks == old(ticks).(responseContentStartedTick :=
        if old(ticks.responseContentStartedTick) == 0 then tick else old(ticks.responseContentStartedTick))
      ensures var r := Buffered(old(base.content.State()), chunk, base.maxLength);
        if r.Success? then thrown.None? && base.content.State() == r.value
        else thrown == Some(r.error) && base.content.State() == old(base.content.State())
    {
      if ticks.responseContentStartedTick == 0 {
        ticks := ticks.(responseContentStartedTick := tick);
      }
      thrown := base.OnContent(response, tick, chunk);
    }

    /** onSuccess(Response) and onFailure(Response, _). */
    method OnResponseComplete(tick: int)
      modifies this
      ensures ticks == old(ticks).(responseCompleteTick := tick)
    {
      ticks := ticks.(responseCompleteTick := tick);
    }

    /** timing(): queued to sent, then every later milestone from the sent tick. */
    function Timing(): (t: Timing)
      reads this
      ensures t.timeToRequestStart == ticks.requestSentTick - ticks.requestQueuedTick
      ensures t.timeToRequestComplete == ticks.requestCompleteTick - ticks.requestSentTick
      ensures t.timeToResponseStatus == ticks.responseStatusReceivedTick - ticks.requestSentTick
      ensures t.timeToFirstResponseHeader == ticks.firstHeaderReceivedTick - ticks.requestSentTick
      ensures t.timeToLastResponseHeader.None?
      ensures t.timeToFirstResponseContent == ticks.responseContentStartedTick - ticks.requestSentTick
      ensures t.timeToCompleteResponse == ticks.responseCompleteTick - ticks.requestSentTick
    {
      var sent := ticks.requestSentTick;
      NewTiming(sent - ticks.requestQueuedTick, ticks.requestCompleteTick - sent,
                ticks.responseStatusReceivedTick - sent, ticks.firstHeaderReceivedTick - sent,
                ticks.responseContentStartedTick - sent, ticks.responseCompleteTick - sent)
    }

    /** onComplete: as the buffering listener's, with this listener's timing instead of the stats. */
    method OnComplete(response: JettyResponse, failure: Option<Throwable>)
      requires Valid()
      modifies base.future
      ensures CompletesNormally(failure, base.truncateOnLimit) ==>
        OfferedResponse(old(base.future.outcome), base.future, response, Some(ContentOf(base.content.State())),
                        None, Some(Timing()), TruncatedAttributes(failure.Some?))
      ensures !CompletesNormally(failure, base.truncateOnLimit) ==>
        base.future.outcome ==
          if old(base.future.outcome).Pending? then Failed(failure.value) else old(base.future.outcome)
    {
      if failure.None? || (base.truncateOnLimit && failure.value.CapacityReached?) {
        var body := base.GetContent();
        var builder := FromResult(response, body, None, Some(Timing()), failure.Some?);
        var r := builder.Create();
        var _ := base.future.Set(r);
      } else {
        var _ := base.future.SetException(failure.value);
      }
    }
  }

  /**
   * The ticks after onHeader for headers arriving at the given ticks, each step as
   * OnHeader (once false) or OnHeaderOnce (once true) states it.
   */
  function AfterHeaders(t: TimingTicks, headerTicks: seq<int>, once: bool): TimingTicks
  {
    if |headerTicks| == 0 then t
    else
      var before := AfterHeaders(t, headerTicks[..|headerTicks| - 1], once);
      var tick := headerTicks[|headerTicks| - 1];
      before.(firstHeaderReceivedTick :=
        if once && before.firstHeaderReceivedTick != 0 then before.firstHeaderReceivedTick else tick)
  }

  /**
   * As written, the "first" header tick ends at the last header's tick, and only that
   * tick changes.
   */
  lemma {:induction false} LastHeaderWinsAsWritten(t: TimingTicks, headerTicks: seq<int>)
    requires |headerTicks| > 0
    ensures AfterHeaders(t, headerTicks, false) ==
      t.(firstHeaderReceivedTick := headerTicks[|headerTicks| - 1])
  {
    if |headerTicks| > 1 {
      LastHeaderWinsAsWritten(t, headerTicks[..|headerTicks| - 1]);
    }
  }

  /**
   * Corrected, starting from no first-header tick and with non-zero ticks, the tick kept
   * is the first header's, and only that tick changes.
   */
  lemma {:induction false} FirstHeaderKeptOnce(t: TimingTicks, headerTicks: seq<int>)
    requires t.firstHeaderReceivedTick == 0 && |headerTicks| > 0
    requires forall i :: 0 <= i < |headerTicks| ==> headerTicks[i] != 0
    ensures AfterHeaders(t, headerTicks, true) == t.(firstHeaderReceivedTick := headerTicks[0])
  {
    if |headerTicks| > 1 {
      var init := headerTicks[..|headerTicks| - 1];
      assert init[0] == headerTicks[0];
      FirstHeaderKeptOnce(t, init);
    }
  }

  /**
   * Only the first duration starts at the queued tick: moving the sent tick by d lengthens
   * the wait before sending by d and shortens every later duration by d.
   */
  lemma TimingMeasuredFromSent(l: TimingListener, m: TimingListener, d: int)
    requires m.ticks == l.ticks.(requestSentTick := l.ticks.requestSentTick + d)
    ensures m.Timing().timeToRequestStart == l.Timing().timeToRequestStart + d
    ensures m.Timing().timeToRequestComplete == l.Timing().timeToRequestComplete - d
    ensures m.Timing().timeToResponseStatus == l.Timing().timeToResponseStatus - d
    ensures m.Timing().timeToFirstResponseHeader == l.Timing().timeToFirstResponseHeader - d
    ensures m.Timing().timeToFirstResponseContent == l.Timing().timeToFirstResponseContent - d
    ensures m.Timing().timeToCompleteResponse == l.Timing().timeToCompleteResponse - d
  {
  }

  /** The wait before sending plus any later duration is that milestone measured from the queued tick. */
  lemma TimingAddsUpFromQueued(l: TimingListener)
    ensures var t := l.Timing(); var q := l.ticks.requestQueuedTick;
      t.timeToRequestStart + t.timeToRequestComplete == l.ticks.requestCompleteTick - q &&
      t.timeToRequestStart + t.timeToResponseStatus == l.ticks.responseStatusReceivedTick - q &&
      t.timeToRequestStart + t.timeToFirstResponseHeader == l.ticks.firstHeaderReceivedTick - q &&
      t.timeToRequestStart + t.timeToFirstResponseContent == l.ticks.responseContentStartedTick - q &&
      t.timeToRequestStart + t.timeToCompleteResponse == l.ticks.responseCompleteTick - q
  {
  }

  /** new TimingListener(maxResponseBytes, truncateOnLimit), completing the given future. */
  method NewTimingListener(future: ResponseFuture, maxResponseBytes: int, truncateOnLimit: bool)
    returns (r: Result<TimingListener>)
    requires IsInt(maxResponseBytes)
    ensures maxResponseBytes < 0 <==> r.Failure?
    ensures r.Failure? ==> r.error == IllegalArgumentException("Invalid max length " + IntToString(maxResponseBytes))
    ensures r.Success? ==> (fresh(r.value) && fresh(r.value.base) && r.value.Valid() &&
                            r.value.base.future == future && r.value.base.maxLength == maxResponseBytes &&
                            r.value.base.truncateOnLimit == truncateOnLimit &&
                            r.value.ticks == TimingTicks(0, 0, 0, 0, 0, 0, 0))
  {
    var base := NewListenableFutureResponseListener(future, maxResponseBytes, truncateOnLimit);
    if base.Failure? {
      return Failure(base.error);
    }
    var l := new TimingListener(base.value);
    r := Success(l);
  }

  /**
   * TestResponseListener: no buffer and no limit (MAX_VALUE, no truncation); it counts
   * the body bytes in an int and hashes them with SHA-256.
   */
  class TestResponseListener {
    const maxLength: int
    const truncateOnLimit: bool
    const stats: StatsListener
    const future: ResponseFuture
    var length: int
    /** The bytes given to the hasher, in order. */
    var hashed: seq<byte>

    /** The count is the number of bytes hashed, as an int, and the bytes the body size counter saw. */
    ghost predicate Valid()
      reads this, stats, stats.responseChunkCount, stats.responseBodySize
    {
      stats.Valid() && length == Int32(|hashed|) && Sum(stats.responseChunks) == |hashed|
    }

    constructor (future: ResponseFuture)
      ensures Valid() && this.future == future && fresh(stats)
      ensures maxLength == INT_MAX && !truncateOnLimit
      ensures forall failure :: !CompletesNormally(Some(failure), truncateOnLimit)
      ensures length == 0 && hashed == [] && stats.fields == InitialFields()
    {
      maxLength := INT_MAX;
      truncateOnLimit := false;
      this.future := future;
      stats := new StatsListener();
      length := 0;
      hashed := [];
    }

    /** BaseResponseListener.onHeaders, with the MAX_VALUE limit. */
    method OnHeaders(response: JettyResponse, tick: int)
      modifies stats, response
      ensures stats.fields == old(stats.fields).(lastHeaderReceivedTick := tick,
        responseHeaderCount := |response.headers|, responseHeaderSize := FieldsSize(response.headers))
      ensures stats.requestChunks == old(stats.requestChunks) && stats.responseChunks == old(stats.responseChunks)
      ensures response.abortCause ==
        if HeadersExceed(response, truncateOnLimit, maxLength) && old(response.abortCause).None?
        then Some(CapacityReached(maxLength)) else old(response.abortCause)
    {
      stats.OnResponseHeaders(tick, response.headers);
      var length := response.contentLength;
      if truncateOnLimit || response.requestMethod == HEAD {
        length := 0;
      }
      if length > maxLength {
        var _ := response.Abort(CapacityReached(maxLength));
      }
    }

    /** onContent: the stats counters, the int count, then the hasher. */
    method OnContent(tick: int, chunk: seq<byte>)
      requires Valid()
      modifies this, stats, stats.responseChunkCount, stats.responseBodySize
      ensures Valid()
      ensures hashed == old(hashed) + chunk
      ensures length == Int32(old(length) + |chunk|)
      ensures stats.responseChunks == old(stats.responseChunks) + [|chunk|]
    {
      stats.OnResponseContent(tick, |chunk|);
      Int32Add(|hashed|, |chunk|);
      length := Int32(length + |chunk|);
      hashed := hashed + chunk;
    }

    /** onComplete: the response without a body, with the stats, the byte count and the hash. */
    method OnComplete(response: JettyResponse, failure: Option<Throwable>)
      requires Valid()
      modifies future
      ensures CompletesNormally(failure, truncateOnLimit) ==>
        OfferedResponse(old(future.outcome), future, response, None, Some(stats.Stats()), None,
          Some((if failure.Some? then map["truncated" := Flag(true)] else map[])
               ["responseLength" := Number(length)]["responseHash" := Hash(Sha256(hashed))]))
      ensures !CompletesNormally(failure, truncateOnLimit) ==>
        future.outcome == if old(future.outcome).Pending? then Failed(failure.value) else old(future.outcome)
    {
      if failure.None? || (truncateOnLimit && failure.value.CapacityReached?) {
        var builder := FromResult(response, null, Some(stats.Stats()), None, failure.Some?);
        builder.AddAttribute("responseLength", Number(length));
        builder.AddAttribute("responseHash", Hash(Sha256(hashed)));
        var r := builder.Create();
        var _ := future.Set(r);
      } else {
        var _ := future.SetException(failure.value);
      }
    }
  }
}
