/** Option and Result values shared by the modules of the model. */
module Common {

  /** A value that may be absent: a missing form field, a failed lookup. */
  datatype Option<+T> = None | Some(value: T)

  /** The outcome of an operation that either succeeds with a value or raises an error. */
  datatype Result<+T, +E> = Ok(value: T) | Err(error: E)
}
