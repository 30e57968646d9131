/** Option and Result values used for the absent values and the exceptions of the modelled scripts. */
module Wrappers {

  /** A value that may be missing (Python's `None`). */
  datatype Option<+T> = None | Some(value: T)

  /** The outcome of a step that may raise: the value, or the exception it raised. */
  datatype Result<+R, +E> = Ok(value: R) | Err(error: E)
}
