/** Optional values, and the outcome every fallible operation reports. */
module Wrappers {
  datatype Option<+T> = None | Some(value: T) {
    predicate IsFailure() { None? }

    function PropagateFailure<U>(): Option<U>
      requires None?
    {
      None
    }

    function Extract(): T
      requires Some?
    {
      value
    }

    function GetOr(fallback: T): T {
      match this
      case None => fallback
      case Some(v) => v
    }
  }

  datatype ErrorCode =
    | InvalidArgument
    | OutOfRange
    | Overflow
    | LimitExceeded
    | ParseError
    | VersionMismatch
    | IntegrityFailure
    | NotSupported
    | NotRunning
    | Busy
    | Cancelled
    | Internal

  datatype Status = Ok | Failure(code: ErrorCode)

  datatype Result<+T> = Success(value: T) | Fault(code: ErrorCode)
}
