/** Option and Result values for the absent arguments and the faults of the model. */
module Wrappers {

  /** A value that may be missing, like Python's `None`. */
  datatype Option<+T> = None | Some(value: T)

  /** Either a result or the fault that ended the computation. */
  datatype Result<+T, +F> = Success(value: T) | Failure(error: F)
}
