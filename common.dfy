/** Failure-compatible wrappers shared by every module of the model. */
module Common {

  /** A value that may be absent (Python's `None`). */
  datatype Option<+T> = None | Some(value: T)

  /** The outcome of an operation that can raise (Python's exceptions). */
  datatype Result<+R, +E> = Ok(value: R) | Err(error: E)

  /** One cell of the loaded table: the text read for it, or None where the table has a
      missing value (pandas' NaN). Every cell is read as text. */
  type Cell = Option<string>
}
