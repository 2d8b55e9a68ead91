/** Wrappers shared by the modules of this project. */
module Wrappers {

  /** A value that may be absent: the outcome of a conversion that can fail. */
  datatype Option<+T> = None | Some(value: T)

  /** Either a value or the error that stopped its computation. */
  datatype Result<+T, +E> = Success(value: T) | Failure(error: E)
}
