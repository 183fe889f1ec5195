/** Failure-carrying values shared by every module of the model. */
module Wrappers {

  /** A value that may be absent (JavaScript's `undefined` / `null` result). */
  datatype Option<+T> = None | Some(value: T) {
    function GetOr(default: T): T {
      match this
      case Some(v) => v
      case None => default
    }
  }

  /** An operation that returns a value or throws an `Error` with a message. */
  datatype Result<+T> = Ok(value: T) | Err(msg: string) {
    predicate IsFailure() { Err? }

    function PropagateFailure<U>(): Result<U>
      requires Err?
    {
      Err(msg)
    }

    function Extract(): T
      requires Ok?
    {
      value
    }
  }

  /** What an API route hands back to the host. `NoContent` is the 204 response,
      `Unauthorized` the 401 response with a null body, and `Failed(msg)` an
      uncaught `Error(msg)`, which the host turns into a server error. */
  datatype Outcome = NoContent | Unauthorized | Failed(msg: string)
}
