/** Failure-carrying values used for the server's thrown errors and for absent JavaScript values. */
module Wrappers {

  /** `None` stands for JavaScript's `undefined` (an absent property, a missing upload). */
  datatype Option<+T> = None | Some(value: T)

  /** A computation that either returns a value or throws an error. */
  datatype Result<+R, +E> = Success(value: R) | Failure(error: E)
}
