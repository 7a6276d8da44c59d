/** Optional values and the failures the backend can signal. */
module Outcomes {

  /** A value that may be absent: C#'s `null` / `DateTime?`, TypeScript's `undefined`. */
  datatype Option<+T> = None | Some(value: T)

  /** The failures the model distinguishes. `NotFound` is the service's
      `KeyNotFoundException` and Entity Framework's failed update of a missing row;
      `DuplicateKey` is the failed insert of an id already stored; `Overflow` is only
      raised by the checked variant of task creation. */
  datatype Error = NotFound | DuplicateKey | Overflow

  datatype Result<+T> = Ok(value: T) | Err(error: Error) {

    /** Applies `f` to a successful value and passes a failure through. */
    function MapOk<U>(f: T -> U): Result<U> {
      match this
      case Ok(v) => Ok(f(v))
      case Err(e) => Err(e)
    }
  }
}
