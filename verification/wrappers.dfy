/** Optional values and results with an error, shared by the rest of the model. */
module Wrappers {

  /** A value that may be absent: a blank spreadsheet cell, an unset selection. */
  datatype Option<+T> = None | Some(value: T)

  /** The outcome of a step that can fail with an error of type `E`. */
  datatype Result<+T, +E> = Success(value: T) | Failure(error: E)
}
