/**
 * The completion handlers of the ning AsyncHttpClient binding.  onCompleted copies the
 * ning response into a ResponseBuilder (the status, every value of every header, the
 * body read up to the maximum) and hands the built Response to the handler's future;
 * onThrowable hands it the failure.  The ning response is a value here: its status,
 * its headers as name and value list in the order ning iterates them, and its body
 * stream, null when there is none.
 */
module NingHandlers {
  import opened Wrappers
  import opened JavaText
  import opened HttpValues
  import opened Requests
  import opened Responses
  import opened Futures
  import opened HeaderFields

  datatype NingResponse = NingResponse(statusCode: int, headers: seq<HeaderEntry>, bodyStream: Option<InputStream>)

  /** What onCompleted makes of the body stream: no body without a stream, else bodyFromInputStream. */
  function BodyRead(response: NingResponse, maxResponseBytes: int): (r: Result<Option<seq<byte>>>)
    ensures response.bodyStream.None? ==> r == Success(None)
    ensures response.bodyStream.Some? ==>
      (r.Success? <==> BodyFromInputStream(response.bodyStream.value, maxResponseBytes).Success?)
    ensures r.Success? && response.bodyStream.Some? ==>
      r.value == Some(response.bodyStream.value.content) && |response.bodyStream.value.content| < maxResponseBytes
    ensures r.Failure? ==> r.error == BodyFromInputStream(response.bodyStream.value, maxResponseBytes).error
  {
    if response.bodyStream.None? then Success(None)
    else
      var read := BodyFromInputStream(response.bodyStream.value, maxResponseBytes);
      if read.Success? then Success(Some(read.value)) else Failure(read.error)
  }

  /** Closing the body stream throws an IOException. */
  predicate CloseFails(response: NingResponse)
  {
    response.bodyStream.Some? && response.bodyStream.value.closeFailure.Some?
  }

  /** The Response onCompleted builds: status, headers, body; no attributes, stats or timing. */
  ghost predicate BuiltFrom(r: Response, response: NingResponse, body: Option<seq<byte>>)
    reads r
  {
    r.statusCode == response.statusCode && r.headers == AddedFields(map[], EntryFields(response.headers)) &&
    r.body == Held(body) && r.attributes.None? && r.stats.None? && r.timing.None?
  }

  /**
   * CompletionHandler with its two subclasses folded in: the constructor chosen decides
   * which future completed and failed go to; both futures accept only their first outcome.
   */
  class CompletionHandler {
    const maxResponseBytes: int
    const future: ResponseFuture

    /** ListenableFutureCompletionHandler(fut, maxResponseBytes): completes the caller's future. */
    constructor ListenableFutureCompletionHandler(fut: ResponseFuture, maxResponseBytes: int)
      ensures future == fut && this.maxResponseBytes == maxResponseBytes
    {
      this.maxResponseBytes := maxResponseBytes;
      future := fut;
    }

    /**
     * CompletableCompletionHandler(fut, maxResponseBytes) as written: the future it
     * completes is a new one, and the caller's future is never referenced again.
     */
    constructor CompletableCompletionHandler(fut: ResponseFuture, maxResponseBytes: int)
      ensures fresh(future) && future.outcome.Pending? && this.maxResponseBytes == maxResponseBytes
    {
      this.maxResponseBytes := maxResponseBytes;
      future := new ResponseFuture();
    }

    /** CompletableCompletionHandler as evidently intended: it keeps the caller's future. */
    constructor CompletableCompletionHandlerOnCallerFuture(fut: ResponseFuture, maxResponseBytes: int)
      ensures future == fut && this.maxResponseBytes == maxResponseBytes
    {
      this.maxResponseBytes := maxResponseBytes;
      future := fut;
    }

    /**
     * onCompleted.  A failing close reports its IOException to the future first; a
     * failing read is then thrown to ning without completing; otherwise the built
     * response is offered to the future, which keeps it only if still pending.
     */
    method OnCompleted(response: NingResponse) returns (thrown: Option<Throwable>)
      modifies future
      ensures var read := BodyRead(response, maxResponseBytes);
        (read.Failure? ==> thrown == Some(read.error)) && (read.Success? ==> thrown.None?)
      ensures CloseFails(response) ==>
        future.outcome == if old(future.outcome).Pending?
                          then Failed(IOException(response.bodyStream.value.closeFailure.value))
                          else old(future.outcome)
      ensures !CloseFails(response) && BodyRead(response, maxResponseBytes).Failure? ==>
        future.outcome == old(future.outcome)
      ensures !CloseFails(response) && BodyRead(response, maxResponseBytes).Success? ==>
        if old(future.outcome).Pending?
        then future.outcome.Completed? &&
             BuiltFrom(future.outcome.response, response, BodyRead(response, maxResponseBytes).value)
        else future.outcome == old(future.outcome)
    {
      var builder := new ResponseBuilder();
      builder.SetStatusCode(response.statusCode);
      AddEntries(builder, response.headers);
      if response.bodyStream.Some? {
        var input := response.bodyStream.value;
        var read := BodyFromInputStream(input, maxResponseBytes);
        if read.Success? {
          var body := new byte[|read.value|](i requires 0 <= i < |read.value| => read.value[i]);
          assert body[..] == read.value;
          builder.SetBody(body);
        }
        if input.closeFailure.Some? {
          var _ := future.SetException(IOException(input.closeFailure.value));
        }
        if read.Failure? {
          return Some(read.error);
        }
      }
      var r := builder.Create();
      var _ := future.Set(r);
      thrown := None;
    }

    /** onThrowable: the failure goes to the future. */
    method OnThrowable(t: Throwable)
      modifies future
      ensures future.outcome == if old(future.outcome).Pending? then Failed(t) else old(future.outcome)
    {
      var _ := future.SetException(t);
    }
  }

  /**
   * With the handler as written, a completed exchange completes the handler's own
   * future while the future the caller passed in stays pending.
   */
  method CompletableLeavesCallerPending(fut: ResponseFuture, status: int) returns (callerDone: bool, handlerDone: bool)
    requires !fut.IsDone()
    ensures !callerDone && handlerDone
  {
    var handler := new CompletionHandler.CompletableCompletionHandler(fut, 1024);
    var _ := handler.OnCompleted(NingResponse(status, [], None));
    callerDone := fut.IsDone();
    handlerDone := handler.future.IsDone();
  }

  /** With the corrected handler the caller's future receives the response. */
  method CompletableCompletesCaller(fut: ResponseFuture, status: int) returns (callerDone: bool)
    requires !fut.IsDone()
    modifies fut
    ensures callerDone && fut.outcome.Completed? && fut.outcome.response.statusCode == status
  {
    var handler := new CompletionHandler.CompletableCompletionHandlerOnCallerFuture(fut, 1024);
    var _ := handler.OnCompleted(NingResponse(status, [], None));
    callerDone := fut.IsDone();
  }
}
