/** Option, Result and Outcome types shared by the modules of this model. */
module Wrappers {

  /** A value that may be missing (Python's None, or a NaN produced by an empty median). */
  datatype Option<+T> = None | Some(value: T)

  /** The value of an operation that raises on failure in the original program. */
  datatype Result<+T, +E> = Ok(value: T) | Err(error: E)

  /** The completion of an operation that returns nothing but may raise. */
  datatype Outcome<+E> = Pass | Fail(error: E)
}
