/** A Success/Failure result, used for operations whose source raises an exception. */
module Wrappers {
  datatype Result<+T, +E> = Success(value: T) | Failure(error: E)
}
