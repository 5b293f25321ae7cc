/** Option and Result: the two failure-carrying shapes the binder needs. */
module Results {

  datatype Option<+T> = None | Some(value: T)

  /** An exception thrown by the native side, or the value produced. */
  datatype Result<+T, +E> = Ok(value: T) | Err(error: E)
}
