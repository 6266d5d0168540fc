/** Small value types shared by the rest of the model. */
module Basics {

  /** A value that may be missing: the result of a coercion that can fail
      (a NaN price or a NaT date in the ledger). */
  datatype Option<+T> = None | Some(value: T)

  /** A value, or the error that stopped its computation. */
  datatype Result<+T, +E> = Success(value: T) | Failure(error: E)
}
