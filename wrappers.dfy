/** Option and Result, for "no permit yet" and for the constructor's IllegalArgumentException. */
module Wrappers {

  datatype Option<+T> = None | Some(value: T)

  datatype Result<+T, +E> = Success(value: T) | Failure(error: E)
}
