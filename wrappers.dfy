/** Option and Result datatypes shared by the model's modules. */
module Wrappers {

  /** A value that may be absent (a null pointer, a "not found" answer). */
  datatype Option<+T> = None | Some(value: T)

  /** The outcome of an operation that may fail with an error of type E. */
  datatype Result<+T, +E> = Success(value: T) | Failure(error: E)
}
