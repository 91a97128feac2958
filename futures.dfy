/**
 * The settable futures the asynchronous clients hand their callers (Guava's
 * SettableFuture and java.util.concurrent.CompletableFuture): pending until the first
 * set or setException, which wins; later completions are refused and change nothing.
 */
module Futures {
  import opened Wrappers
  import opened Responses

  datatype Outcome = Pending | Completed(response: Response) | Failed(failure: Throwable)

  class ResponseFuture {
    var outcome: Outcome

    constructor ()
      ensures outcome == Pending
    {
      outcome := Pending;
    }

    /** set / complete: true, and the response stored, exactly when the future was still pending. */
    method Set(response: Response) returns (changed: bool)
      modifies this
      ensures changed <==> old(outcome).Pending?
      ensures outcome == if changed then Completed(response) else old(outcome)
    {
      changed := outcome.Pending?;
      if changed {
        outcome := Completed(response);
      }
    }

    /** setException / completeExceptionally: as set, with the failure. */
    method SetException(failure: Throwable) returns (changed: bool)
      modifies this
      ensures changed <==> old(outcome).Pending?
      ensures outcome == if changed then Failed(failure) else old(outcome)
    {
      changed := outcome.Pending?;
      if changed {
        outcome := Failed(failure);
      }
    }

    /** isDone. */
    predicate IsDone()
      reads this
    {
      !outcome.Pending?
    }
  }
}
