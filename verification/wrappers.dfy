/** Failure-carrying datatypes shared by the other modules. */
module Wrappers {

  /** A value that may be absent (Python's `None`). */
  datatype Option<+T> = None | Some(value: T)

  /** Either a value or the fault that prevented computing it. */
  datatype Result<+R, +E> = Success(value: R) | Failure(error: E)
}
