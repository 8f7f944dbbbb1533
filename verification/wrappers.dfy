/** Failure-compatible wrappers shared by every module of the lunch app model. */
module Wrappers {

  /** A value that may be absent: JavaScript's `null` / `undefined`. */
  datatype Option<+T> = None | Some(value: T) {

    function GetOr(default: T): T {
      match this
      case Some(v) => v
      case None => default
    }
  }

  /** The outcome of an operation that can throw; the error is the thrown error's `message`. */
  datatype Result<+T> = Ok(value: T) | Err(error: string)
}
