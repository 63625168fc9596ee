/** Failure-carrying wrappers shared by the whole model. */
module Wrappers {

  /** An optional value. Also stands for a number that may be NaN or a JSON `null`. */
  datatype Option<+T> = None | Some(value: T)

  /** The outcome of an operation of the program that may raise. */
  datatype Result<+T, +E> = Success(value: T) | Failure(error: E)
}
