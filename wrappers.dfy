/** Option and Result: the error paths of the preprocessing pipeline are
    modelled as values instead of Python exceptions. */
module Wrappers {

  datatype Option<+T> = None | Some(value: T)

  datatype Result<+T, +E> = Success(value: T) | Failure(error: E)
}
