/** Failure-carrying wrappers shared by every module of the model. */
module Results {

  /** A value that may be absent (Python's None where a value was optional). */
  datatype Option<+T> = None | Some(value: T)

  /** Either a value or the error that the source raises or reports instead. */
  datatype Result<+T, +E> = Ok(value: T) | Err(error: E)
}
