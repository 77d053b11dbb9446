/** Failure-carrying result types shared by every module of the model. */
module Wrappers {

  /** A value that may be absent (a missing JSON field, a `null` lookup). */
  datatype Option<+T> = None | Some(value: T) {

    /** The value, or `default` when absent (JavaScript's `x || default`). */
    function GetOr(default: T): T {
      match this
      case Some(v) => v
      case None => default
    }
  }

  /** The outcome of a request handler: a new state, or the error it answers with. */
  datatype Result<+R, +E> = Success(value: R) | Failure(error: E)
}
