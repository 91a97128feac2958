/** Java's null, return-or-throw and the exceptions the core raises, as values. */
module Wrappers {

  /** A Java reference that may be null. */
  datatype Option<T> = None | Some(value: T)
  {
    function GetOr(default: T): T
    {
      if Some? then value else default
    }
  }

  /** The exceptions thrown by the core, by the condition that raises them. */
  datatype Throwable =
    | NullPointerException
    | IllegalArgumentException(message: string)
    | DataLimitException(message: string)
    | IOException(message: string)
    | CapacityReached(maxLength: int)
    | TransportFailure(message: string)
    | StringIndexOutOfBounds(begin: int, end: int)

  /** A call that either returns a value or throws. */
  datatype Result<T> = Success(value: T) | Failure(error: Throwable)
  {
    predicate IsFailure()
    {
      Failure?
    }
  }

  function Min(a: int, b: int): int
  {
    if a <= b then a else b
  }

  function Max(a: int, b: int): int
  {
    if a >= b then a else b
  }
}
