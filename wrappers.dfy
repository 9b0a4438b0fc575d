/** Failure-carrying values shared by the other modules: a Python function that
    may return nothing, or may raise, becomes a function or method that returns
    one of these. */
module Wrappers {

  /** A value or nothing (Python's `None`). */
  datatype Option<+T> = None | Some(value: T)

  /** A value or the exception that was raised instead. */
  datatype Result<+R, +E> = Success(value: R) | Failure(error: E)
}
