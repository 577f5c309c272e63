/** Failure-carrying values shared by every module of the model. */
module Results {

  /** A value that may be absent: Go's nil pointer or missing map entry. */
  datatype Option<T> = None | Some(value: T)

  /** A value or the error that replaced it: Go's `(T, error)` return pair. */
  datatype Result<T, E> = Ok(value: T) | Err(error: E)
}
