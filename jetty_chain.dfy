/**
 * ListenerChain: one Jetty listener that forwards every request event to each request
 * listener and every response event to each response listener, in list order.  The
 * listeners themselves are outside the model: each is an identifier, what it is handed
 * is recorded in the chain's delivery log, and its answer to onHeader is a parameter.
 */
module JettyChain {
  import opened Wrappers
  import opened JavaText
  import opened HeaderFields
  import opened JettyExchange

  type ListenerId = nat

  datatype ContentKind = Plain | WithCallback | WithDemand

  /** The events of Request.Listener and Response.Listener (the three onContent forms by kind). */
  datatype Event =
    | Queued | RequestBegin | RequestHeaders | Commit | RequestContent(bytes: seq<byte>)
    | RequestSuccess | RequestFailure(requestFailure: Throwable)
    | ResponseBegin | Header(field: Field) | ResponseHeaders | ResponseContent(kind: ContentKind, chunk: seq<byte>)
    | ResponseSuccess | ResponseFailure(responseFailure: Throwable) | Complete(failure: Option<Throwable>)

  predicate IsRequestEvent(e: Event)
  {
    e.Queued? || e.RequestBegin? || e.RequestHeaders? || e.Commit? || e.RequestContent? ||
    e.RequestSuccess? || e.RequestFailure?
  }

  datatype Delivery = Delivery(listener: ListenerId, event: Event)

  /** The event handed to each listener, in list order. */
  function Deliveries(listeners: seq<ListenerId>, e: Event): (d: seq<Delivery>)
    ensures |d| == |listeners|
    ensures forall i :: 0 <= i < |d| ==> d[i] == Delivery(listeners[i], e)
  {
    seq(|listeners|, i requires 0 <= i < |listeners| => Delivery(listeners[i], e))
  }

  /** Whether every listener accepts the header. */
  predicate AllAccept(listeners: seq<ListenerId>, accepts: ListenerId -> bool)
  {
    forall i :: 0 <= i < |listeners| ==> accepts(listeners[i])
  }

  /** ImmutableList.copyOf: a null element is refused; a null list is replaced by the empty list. */
  function CopyOf(list: Option<seq<Option<ListenerId>>>): (r: Result<seq<ListenerId>>)
    ensures list.None? ==> r == Success([])
    ensures list.Some? ==> (r.Failure? <==> exists i :: 0 <= i < |list.value| && list.value[i].None?)
    ensures r.Failure? ==> r.error == NullPointerException
    ensures list.Some? && r.Success? ==>
      |r.value| == |list.value| && forall i :: 0 <= i < |r.value| ==> list.value[i] == Some(r.value[i])
  {
    if list.None? then Success([])
    else if exists i :: 0 <= i < |list.value| && list.value[i].None? then Failure(NullPointerException)
    else Success(seq(|list.value|, i requires 0 <= i < |list.value| => list.value[i].value))
  }

  class ListenerChain {
    const requestListeners: seq<ListenerId>
    const responseListeners: seq<ListenerId>
    /** Every handler call made so far, in order. */
    var delivered: seq<Delivery>

    constructor (requestListeners: seq<ListenerId>, responseListeners: seq<ListenerId>)
      ensures this.requestListeners == requestListeners && this.responseListeners == responseListeners
      ensures delivered == []
    {
      this.requestListeners := requestListeners;
      this.responseListeners := responseListeners;
      delivered := [];
    }

    /** The forEach of every handler: the event to each listener in turn. */
    method Forward(listeners: seq<ListenerId>, e: Event)
      modifies this
      ensures delivered == old(delivered) + Deliveries(listeners, e)
    {
      var i := 0;
      while i < |listeners|
        invariant 0 <= i <= |listeners|
        invariant delivered == old(delivered) + Deliveries(listeners[..i], e)
      {
        delivered := delivered + [Delivery(listeners[i], e)];
        assert Deliveries(listeners[..i + 1], e) == Deliveries(listeners[..i], e) + [Delivery(listeners[i], e)];
        i := i + 1;
      }
      assert listeners[..i] == listeners;
    }

    /** onQueued, onBegin, onHeaders, onCommit, onContent, onSuccess, onFailure of a request. */
    method OnRequestEvent(e: Event)
      requires IsRequestEvent(e)
      modifies this
      ensures delivered == old(delivered) + Deliveries(requestListeners, e)
    {
      Forward(requestListeners, e);
    }

    /** onBegin, onHeaders, the three onContent forms, onSuccess, onFailure and onComplete of a response. */
    method OnResponseEvent(e: Event)
      requires !IsRequestEvent(e) && !e.Header?
      modifies this
      ensures delivered == old(delivered) + Deliveries(responseListeners, e)
    {
      Forward(responseListeners, e);
    }

    /** onHeader: every listener sees the header, even after one refuses it; accepted only if all accept. */
    method OnHeader(field: Field, accepts: ListenerId -> bool) returns (res: bool)
      modifies this
      ensures delivered == old(delivered) + Deliveries(responseListeners, Header(field))
      ensures res <==> AllAccept(responseListeners, accepts)
    {
      res := true;
      var i := 0;
      while i < |responseListeners|
        invariant 0 <= i <= |responseListeners|
        invariant delivered == old(delivered) + Deliveries(responseListeners[..i], Header(field))
        invariant res <==> AllAccept(responseListeners[..i], accepts)
      {
        var l := responseListeners[i];
        delivered := delivered + [Delivery(l, Header(field))];
        if !accepts(l) {
          res := false;
        }
        assert Deliveries(responseListeners[..i + 1], Header(field)) ==
          Deliveries(responseListeners[..i], Header(field)) + [Delivery(l, Header(field))];
        assert forall j :: 0 <= j < i ==> responseListeners[..i + 1][j] == responseListeners[..i][j];
        i := i + 1;
      }
      assert responseListeners[..i] == responseListeners;
    }
  }

  /** new ListenerChain(requestListeners, responseListeners). */
  method NewListenerChain(requestListeners: Option<seq<Option<ListenerId>>>,
                          responseListeners: Option<seq<Option<ListenerId>>>) returns (r: Result<ListenerChain>)
    ensures CopyOf(requestListeners).Failure? ==> r == Failure(NullPointerException)
    ensures CopyOf(requestListeners).Success? && CopyOf(responseListeners).Failure? ==> r == Failure(NullPointerException)
    ensures r.Success? ==> (CopyOf(requestListeners).Success? && CopyOf(responseListeners).Success? &&
                            fresh(r.value) && r.value.delivered == [] &&
                            r.value.requestListeners == CopyOf(requestListeners).value &&
                            r.value.responseListeners == CopyOf(responseListeners).value)
  {
    var req := CopyOf(requestListeners);
    if req.Failure? {
      return Failure(req.error);
    }
    var resp := CopyOf(responseListeners);
    if resp.Failure? {
      return Failure(resp.error);
    }
    var chain := new ListenerChain(req.value, resp.value);
    r := Success(chain);
  }
}
