/** Option and Result, the shapes Go's `(value, error)` pairs take in this model. */
module Outcomes {

  datatype Option<+T> = None | Some(value: T)

  datatype Result<+T, +E> = Success(value: T) | Failure(error: E)
}
