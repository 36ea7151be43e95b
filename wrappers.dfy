/** Option and Result values for the source's `null` and its thrown errors. */
module Wrappers {

  datatype Option<+T> = None | Some(value: T)

  /** `Failure` carries the message of the `Error` the source throws. */
  datatype Result<+R, +E> = Success(value: R) | Failure(error: E)
}
