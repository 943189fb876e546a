/** Small failure-carrying datatypes shared by the other modules. */
module Wrappers {

  /** A value or nothing: Python's `None` where a card may be missing. */
  datatype Option<+T> = None | Some(value: T)

  /** A value or the error the source raises instead of returning one. */
  datatype Result<+T, +E> = Ok(value: T) | Err(error: E)
}
