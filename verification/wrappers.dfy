/** Wrappers shared by the other modules. */
module Wrappers {

  /** A value that may be absent: Python's `None` versus a present value. */
  datatype Option<+T> = None | Some(value: T)

  /** Either a value or the exception that was raised instead of it. */
  datatype Result<+R, +E> = Success(value: R) | Failure(error: E)
}
