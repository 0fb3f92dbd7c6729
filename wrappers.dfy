/** Failure-carrying results shared by the grid and the solver. */
module Wrappers {

  /** A value that may be missing (Python's IndexError on a bad subscript). */
  datatype Option<+T> = None | Some(value: T)

  /** A value or the error an operation raised instead of returning. */
  datatype Result<+T, +E> = Success(value: T) | Failure(error: E)
}
