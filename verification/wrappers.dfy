/** Failure-compatible wrappers used for the JavaScript `null`/`undefined`
    results and for the errors that the JavaScript code reports with `throw`. */
module Wrappers {

  /** A value that may be missing (`null` or `undefined` in the JavaScript code). */
  datatype Option<+T> = None | Some(value: T)

  /** The value of an operation that returns normally or throws. */
  datatype Result<+T, +E> = Success(value: T) | Failure(error: E)

  /** The outcome of an operation that returns nothing or throws. */
  datatype Outcome<+E> = Pass | Fail(error: E)
}
