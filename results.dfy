/** Optional values and the outcome of an operation that can fail. */
module Results {

  datatype Option<+T> = None | Some(value: T)

  /** A settled promise: fulfilled with a value, or rejected with an error. */
  datatype Result<+T, +E> = Ok(value: T) | Err(error: E)
}
