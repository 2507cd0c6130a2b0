/** Option and Result values for the places where the source returns None,
    silently rejects a candidate, or raises. */
module Wrappers {

  datatype Option<+T> = None | Some(value: T)

  datatype Result<+R, +E> = Success(value: R) | Failure(error: E)
}
