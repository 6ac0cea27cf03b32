/** Option and Result: Go's `(value, error)` returns and `nil` are modelled with these. */
module Wrappers {

  datatype Option<+T> = None | Some(value: T)

  datatype Result<+R, +E> = Success(value: R) | Failure(error: E)
}
