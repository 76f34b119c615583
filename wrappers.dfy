/** Option and Result, used for JavaScript's `undefined` and for the exceptions the app can raise. */
module Wrappers {

  /** `None` stands for a JavaScript `undefined` (or `null`) value. */
  datatype Option<+T> = None | Some(value: T)

  /** `Failure` stands for an exception that aborts the computation. */
  datatype Result<+R, +E> = Success(value: R) | Failure(error: E)
}
