/** Option and Result, used for the source's failure paths (exceptions that are caught or raised). */
module Wrappers {
  datatype Option<+T> = None | Some(value: T)

  datatype Result<+T, +E> = Success(value: T) | Failure(error: E)
}
