/** Option and Result, shared by the modules of the barcode model. */
module Wrappers {

  /** A value that may be missing (Python's None). */
  datatype Option<+T> = None | Some(value: T)

  /** The value of an operation that may raise. */
  datatype Result<+R, +E> = Success(value: R) | Failure(error: E)
}
