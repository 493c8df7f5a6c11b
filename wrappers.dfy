/** Optional values and results with an error, used for pandas' missing values and
    for the exceptions the pipeline lets escape. */
module Wrappers {

  /** A value that may be absent; `None` stands for a missing (NaN) cell. */
  datatype Option<+T> = None | Some(value: T)

  /** The outcome of an operation that either succeeds with a value or raises. */
  datatype Result<+R, +E> = Success(value: R) | Failure(error: E)
}
