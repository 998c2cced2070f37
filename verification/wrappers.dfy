/** Option and Result, the failure-carrying values used across the model. */
module Wrappers {

  /** A value that may be absent (Python's `None`, or numpy's `np.array(None)` marker). */
  datatype Option<+T> = None | Some(value: T)

  /** The outcome of an operation that raises in the source: `Failure` stands for the exception. */
  datatype Result<+R, +E> = Success(value: R) | Failure(error: E)
}
