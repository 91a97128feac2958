/**
 * What the Jetty listeners see of Jetty's own client objects: header fields, and the
 * response under way, which records the first cause it is aborted with.  A Jetty Result
 * is the response with its failure, if any.
 */
module JettyExchange {
  import opened Wrappers
  import opened HttpValues
  import opened HeaderFields

  /**
   * A response in progress: its status, its header fields in arrival order, the
   * method of its request, and the Content-Length Jetty parses from the headers
   * (-1 when absent).
   */
  class JettyResponse {
    const status: int
    const headers: seq<Field>
    const requestMethod: Method
    const contentLength: int
    var abortCause: Option<Throwable>

    constructor (status: int, headers: seq<Field>, requestMethod: Method, contentLength: int)
      ensures this.status == status && this.headers == headers
      ensures this.requestMethod == requestMethod && this.contentLength == contentLength
      ensures abortCause.None?
    {
      this.status := status;
      this.headers := headers;
      this.requestMethod := requestMethod;
      this.contentLength := contentLength;
      abortCause := None;
    }

    /** abort: only the first cause is kept; the result says whether this call aborted. */
    method Abort(cause: Throwable) returns (aborted: bool)
      modifies this
      ensures aborted <==> old(abortCause).None?
      ensures abortCause == if aborted then Some(cause) else old(abortCause)
    {
      aborted := abortCause.None?;
      if aborted {
        abortCause := Some(cause);
      }
    }
  }
}
