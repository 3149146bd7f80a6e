/** Option and Result, the model's stand-ins for `undefined` and for thrown exceptions. */
module Wrappers {

  /** `None` plays the part of JavaScript's `undefined`. */
  datatype Option<+T> = None | Some(value: T)

  /** `Failure` plays the part of an exception thrown by the modelled code. */
  datatype Result<+T, +E> = Success(value: T) | Failure(error: E)
}
