/** Option and Result: the optional fields of the records and the outcome of a validation. */
module Wrappers {

  datatype Option<+T> = None | Some(value: T)

  /** Either the validated value or the list of problems found. */
  datatype Result<+T, +E> = Ok(value: T) | Err(error: E)
}
