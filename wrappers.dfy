/** Small shared helpers: the optional value used wherever the program returns
    `null`, a default value or a `Try…` failure. */
module Wrappers {

  /** A value that may be missing (the program's `null` or a failed lookup). */
  datatype Option<+T> = None | Some(value: T)

  /** A value, or the error that prevented it. */
  datatype Result<+T, +E> = Ok(value: T) | Err(error: E)
}
