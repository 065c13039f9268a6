/** Option and Result: the two shapes every fallible operation of the model returns. */
module Wrappers {
  datatype Option<T> = None | Some(value: T)

  /** A Python call either returns a value or raises an error. */
  datatype Result<T, E> = Success(value: T) | Failure(error: E)
}
