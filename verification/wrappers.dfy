/** Option and Result datatypes shared by the other modules. */
module Wrappers {

  /** A value that may be absent: Go's `(value, ok)` pairs and nil-or-not error results. */
  datatype Option<+T> = None | Some(value: T)

  /** The result of a step that either yields a value or fails with an error. */
  datatype Result<+R, +E> = Success(value: R) | Failure(error: E)
}
