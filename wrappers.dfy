/** Option and Result, the two failure-compatible wrappers the model uses. */
module Wrappers {

  /** A value that may be absent (a JavaScript `null` or `undefined` the source tests for). */
  datatype Option<+T> = None | Some(value: T)

  /** The outcome of a step that may throw: `Failure` carries what was thrown. */
  datatype Result<+R, +E> = Success(value: R) | Failure(error: E) {

    predicate IsFailure() {
      Failure?
    }

    function PropagateFailure<U>(): Result<U, E>
      requires Failure?
    {
      Failure(error)
    }

    function Extract(): R
      requires Success?
    {
      value
    }
  }
}
