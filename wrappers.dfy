/** Option and Result: the error paths of the modelled Python code (an exception the
    source raises becomes a Failure value). */
module Wrappers {

  datatype Option<T> = None | Some(value: T)

  datatype Result<T, E> = Success(value: T) | Failure(error: E)
}
