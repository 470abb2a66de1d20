/** Option, Result and Verdict values used for missing fields and for the
    error replies of the handlers. */
module Wrappers {

  /** A value that may be absent (a JavaScript `null`/`undefined` field). */
  datatype Option<+T> = None | Some(value: T)

  /** The reply of a handler that computes a value or refuses with an error. */
  datatype Result<+R, +E> = Success(value: R) | Failure(error: E)

  /** The reply of a handler that either goes through or refuses with an error. */
  datatype Verdict<+E> = Pass | Fail(error: E)
}
