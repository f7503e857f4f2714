/** Optional values and failures, standing in for Ruby's `nil` and raised exceptions. */
module Results {

  /** `None` plays the part of Ruby's `nil`. */
  datatype Option<+T> = None | Some(value: T)

  /** A computation that either produced a value or raised an error. */
  datatype Result<+T, +E> = Ok(value: T) | Err(error: E)
}
