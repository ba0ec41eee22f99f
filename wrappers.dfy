/** Optional values and error results, standing for Python's `None` and raised exceptions. */
module Wrappers {

  /** A value that may be absent (`None` in the source). */
  datatype Option<+T> = None | Some(value: T)

  /** The outcome of an operation that the source lets raise an exception. */
  datatype Result<+T, +E> = Ok(value: T) | Err(error: E)
}
