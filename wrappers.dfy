/** Failure-carrying values shared by the other modules. */
module Wrappers {

  /** A value that may be absent: a SQL NULL, an empty date field, a row that was not found. */
  datatype Option<+T> = None | Some(value: T)

  /** The outcome of a database statement: a value, or the error the driver raises. */
  datatype Result<+T, +E> = Ok(value: T) | Err(error: E)
}
