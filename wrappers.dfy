/** Option and Result values for the error paths that the Python code
    expresses with None, empty strings and caught exceptions. */
module Wrappers {

  datatype Option<+T> = None | Some(value: T)

  datatype Result<+T, +E> = Success(value: T) | Failure(error: E)
}
