/** Optional values and results with a failure, as the rest of the model uses them. */
module Wrappers {

  /** Python's `None` or a value. */
  datatype Option<+T> = None | Some(value: T)

  /** A value, or the exception that ended the run. */
  datatype Result<+T, +E> = Ok(value: T) | Err(error: E)
}
