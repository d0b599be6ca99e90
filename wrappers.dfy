/** Failure-compatible wrappers shared by the other modules. */
module Wrappers {

  /** A value that may be absent (Python's `None`, or pandas' NaN for an empty reduction). */
  datatype Option<+T> = None | Some(value: T)

  /** Either a value or the exception that the Python code would raise instead. */
  datatype Result<+R, +E> = Success(value: R) | Failure(error: E)
}
