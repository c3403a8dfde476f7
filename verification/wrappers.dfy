/** Option and Result, the two failure-aware wrappers the model needs. */
module Wrappers {

  /** A value that may be absent: Swift's `T?`. */
  datatype Option<+T> = None | Some(value: T)

  /** The outcome of an event handler: the new state, or the fault that ends the process. */
  datatype Result<+R, +E> = Success(value: R) | Failure(error: E)
}
