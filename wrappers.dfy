/** Failure-compatible wrappers used across the model. */
module Wrappers {

  /** `Some(v)` for a value, `None` for JavaScript `null` or an absent result. */
  datatype Option<+T> = None | Some(value: T)

  /** The outcome of a call that either returns a value or throws. */
  datatype Result<+R, +E> = Success(value: R) | Failure(error: E)
}
