/** Optional values and results with a status code. */
module Wrappers {

  datatype Option<+T> = None | Some(value: T)

  /** A value, or the non-zero status code of the operation that failed. */
  datatype Result<+T> = Ok(value: T) | Err(code: int)
}
