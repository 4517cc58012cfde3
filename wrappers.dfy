/** The success-or-failure value that stands in for Go's `(value, error)` pairs and panics. */
module Wrappers {

  datatype Result<+T, +E> = Success(value: T) | Failure(error: E)
}
