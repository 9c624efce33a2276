/** Failure-carrying wrappers shared by the whole model. */
module Common {
  /** A value that may be absent: pandas' NaN/NaT/None cell, SQL NULL, Python's None. */
  datatype Option<T> = None | Some(value: T)

  /** The outcome of an operation that raises in the source. */
  datatype Result<T, E> = Ok(value: T) | Err(error: E)
}
