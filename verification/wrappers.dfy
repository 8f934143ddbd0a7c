/** Failure-carrying result types shared by every module of the model. */
module Wrappers {

  /** An optional value: JavaScript's `undefined`/`null` versus a present value. */
  datatype Option<+T> = None | Some(value: T) {
    function GetOr(default: T): T {
      match this
      case Some(v) => v
      case None => default
    }
  }

  /** The outcome of a Convex mutation: a new value, or the error it throws. */
  datatype Result<+T> = Ok(value: T) | Err(error: string)
}
