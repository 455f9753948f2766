/** Option and Result values shared by the store, the session layer and the client. */
module Common {

  /** A value that may be missing (Python's `None`). */
  datatype Option<+T> = None | Some(value: T)

  /** Either a value or the error a Python function raises instead of returning. */
  datatype Result<+T, +E> = Ok(value: T) | Err(error: E)
}
