/** Optional values and results with an error, used for nil returns and raised errors. */
module Wrappers {

  /** A value that may be absent, as Ruby's `nil` return. */
  datatype Option<+T> = None | Some(value: T)

  /** A successful value or the error an operation raised. */
  datatype Result<+R, +E> = Ok(value: R) | Err(error: E)
}
