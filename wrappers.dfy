/** Option and Result, used for the places where the client either produces a value or
    stops with one of its error conditions. */
module Wrappers {

  datatype Option<+T> = None | Some(value: T)

  datatype Result<+R, +E> = Success(value: R) | Failure(error: E)
}
