/** Optional values and results with an error, as used throughout the model. */
module Wrappers {

  /** A value that may be absent: pandas' NaN / None / NaT in a column. */
  datatype Option<+T> = None | Some(value: T)

  /** The outcome of an operation that may raise. */
  datatype Result<+R, +E> = Success(value: R) | Failure(error: E)
}
