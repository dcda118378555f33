/** Failure-carrying result types shared by the model. */
module Wrappers {

  /** A value that may be missing: SQL NULL, Python None, or a failed lookup. */
  datatype Option<+T> = None | Some(value: T)

  /** Either a value or the error the source would raise. */
  datatype Result<+T, +E> = Ok(value: T) | Err(error: E)
}
