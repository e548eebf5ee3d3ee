/** Option and Result, the failure-carrying values the rest of the model returns. */
module Wrappers {

  datatype Option<+T> = None | Some(value: T)

  /** Ok carries a value; Err carries the exception the source would raise. */
  datatype Result<+T, +E> = Ok(value: T) | Err(error: E)
}
