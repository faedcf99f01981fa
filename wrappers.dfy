/** Optional values, results and pass/fail outcomes used throughout the model. */
module Wrappers {

  /** A value that may be absent (JavaScript's `undefined`). */
  datatype Option<+T> = None | Some(value: T)

  /** The result of an operation that either produces a value or throws. */
  datatype Result<+R, +E> = Success(value: R) | Failure(error: E)

  /** The result of an operation that produces nothing, or throws. */
  datatype Outcome<+E> = Pass | Fail(error: E)
}
