/** Option and Result, the failure-carrying values used across the model. */
module Wrappers {

  /** An optional value: `None` stands for JavaScript's `null` and for `NaN`. */
  datatype Option<+T> = None | Some(value: T)

  /** The outcome of a call that can fail with an error of type `E`. */
  datatype Result<+R, +E> = Success(value: R) | Failure(error: E)
}
