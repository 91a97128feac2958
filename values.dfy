/**
 * The small immutable values of the HTTP model: methods, cookies, timing, statistics
 * (with their two live counters), request options, and the attribute values the
 * listeners attach to responses.
 */
module HttpValues {
  import opened Wrappers
  import opened JavaText

  /** Request.Method, in the revision that the builders use. */
  datatype Method = HEAD | GET | POST | PUT | DELETE | PATCH | OPTIONS

  /** A hash value, kept symbolically as the algorithm and its input (collision-free). */
  datatype Digest = Sha1(input: seq<byte>) | Sha256(input: seq<byte>)

  /** An attribute value (java.lang.Object) of the kinds the core stores. */
  datatype Attr = Flag(b: bool) | Number(n: int) | Text(s: string) | Hash(d: Digest)

  /** Cookie: seven final fields. */
  datatype Cookie = Cookie(
    name: string, value: string, domain: string, path: string,
    maxAgeSeconds: int, secure: bool, httpOnly: bool)

  /** Cookie.requestCookie: name and value, no domain or path, session lifetime, not secure. */
  function RequestCookie(name: string, value: string): (c: Cookie)
    ensures c.name == name && c.value == value
    ensures c.domain == "" && c.path == ""
    ensures c.maxAgeSeconds == -1 && !c.secure && !c.httpOnly
  {
    Cookie(name, value, "", "", -1, false, false)
  }

  /**
   * Timing, in nanoseconds.  The revision with six fields (Timing.java) has no
   * time to the last response header; Stats passes a seventh value, kept here as Some.
   */
  datatype Timing = Timing(
    timeToRequestStart: int,
    timeToRequestComplete: int,
    timeToResponseStatus: int,
    timeToFirstResponseHeader: int,
    timeToLastResponseHeader: Option<int>,
    timeToFirstResponseContent: int,
    timeToCompleteResponse: int)

  /** The six-argument Timing constructor: every duration stored as given, negative ones included. */
  function NewTiming(requestStart: int, requestComplete: int, responseStatus: int,
                     firstResponseHeader: int, firstResponseContent: int, completeResponse: int): (t: Timing)
    ensures t.timeToRequestStart == requestStart && t.timeToRequestComplete == requestComplete
    ensures t.timeToResponseStatus == responseStatus && t.timeToFirstResponseHeader == firstResponseHeader
    ensures t.timeToFirstResponseContent == firstResponseContent && t.timeToCompleteResponse == completeResponse
    ensures t.timeToLastResponseHeader.None?
  {
    Timing(requestStart, requestComplete, responseStatus, firstResponseHeader, None,
           firstResponseContent, completeResponse)
  }

  /** java.util.concurrent.atomic.AtomicInteger / AtomicLong, without the wrap-around. */
  class AtomicCounter {
    var value: int

    constructor (initial: int)
      ensures value == initial
    {
      value := initial;
    }

    method AddAndGet(delta: int) returns (r: int)
      modifies this
      ensures value == old(value) + delta && r == value
    {
      value := value + delta;
      r := value;
    }
  }

  /**
   * Stats extends Timing with request and response counters.  The response chunk
   * count and body size are the counter objects themselves, not their values.
   */
  datatype Stats = Stats(
    timing: Timing,
    requestHeaderCount: int,
    requestHeaderSize: int,
    requestChunkCount: int,
    requestBodySize: int,
    responseHeaderCount: int,
    responseHeaderSize: int,
    responseChunkCount: AtomicCounter,
    responseBodySize: AtomicCounter)

  /** The Stats constructor: the seven durations go to Timing in order, the rest are stored. */
  function NewStats(requestStart: int, requestComplete: int, responseStatus: int,
                    firstResponseHeader: int, lastResponseHeader: int,
                    firstResponseContent: int, completeResponse: int,
                    requestHeaderCount: int, requestHeaderSize: int,
                    requestChunkCount: int, requestBodySize: int,
                    responseHeaderCount: int, responseHeaderSize: int,
                    responseChunkCount: AtomicCounter, responseBodySize: AtomicCounter): (s: Stats)
    ensures s.timing.timeToRequestStart == requestStart && s.timing.timeToRequestComplete == requestComplete
    ensures s.timing.timeToResponseStatus == responseStatus
    ensures s.timing.timeToFirstResponseHeader == firstResponseHeader
    ensures s.timing.timeToLastResponseHeader == Some(lastResponseHeader)
    ensures s.timing.timeToFirstResponseContent == firstResponseContent
    ensures s.timing.timeToCompleteResponse == completeResponse
    ensures s.requestHeaderCount == requestHeaderCount && s.requestHeaderSize == requestHeaderSize
    ensures s.requestChunkCount == requestChunkCount && s.requestBodySize == requestBodySize
    ensures s.responseHeaderCount == responseHeaderCount && s.responseHeaderSize == responseHeaderSize
    ensures s.responseChunkCount == responseChunkCount && s.responseBodySize == responseBodySize
  {
    Stats(Timing(requestStart, requestComplete, responseStatus, firstResponseHeader,
                 Some(lastResponseHeader), firstResponseContent, completeResponse),
          requestHeaderCount, requestHeaderSize, requestChunkCount, requestBodySize,
          responseHeaderCount, responseHeaderSize, responseChunkCount, responseBodySize)
  }

  /** RequestOptions: three final fields, stored without validation. */
  datatype RequestOptions = RequestOptions(followRedirects: bool, maxResponseBytes: int, timeoutSeconds: int)

  const DEFAULT_FOLLOW_REDIRECTS: bool := true
  const DEFAULT_MAX_RESPONSE_BYTES: int := 1024 * 1024
  const DEFAULT_TIMEOUT_SECONDS: int := 5

  /** RequestOptions.DEFAULT. */
  function DefaultRequestOptions(): (o: RequestOptions)
    ensures o.followRedirects && o.maxResponseBytes == 1048576 && o.timeoutSeconds == 5
  {
    RequestOptions(DEFAULT_FOLLOW_REDIRECTS, DEFAULT_MAX_RESPONSE_BYTES, DEFAULT_TIMEOUT_SECONDS)
  }
}
