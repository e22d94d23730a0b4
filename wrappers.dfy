/** Failure-carrying values shared by every module of the model. */
module Wrappers {

  /** A value that may be absent: Ruby's `nil`, Python's `None`. */
  datatype Option<+T> = None | Some(value: T) {
    /** Ruby's `x || default`. */
    function GetOr(default: T): T {
      match this
      case Some(v) => v
      case None => default
    }
  }

  /** The result of a step that either produces a value or raises. */
  datatype Result<+R, +E> = Success(value: R) | Failure(error: E)

  /** The result of a step that produces nothing but may raise. */
  datatype Outcome<+E> = Pass | Fail(error: E)
}
