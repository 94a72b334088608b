/** Small failure-carrying datatypes shared by the other modules. */
module Wrappers {

  /** A value that may be absent (JavaScript `undefined`). */
  datatype Option<+T> = None | Some(value: T)

  /** A value or a thrown error. */
  datatype Result<+T, +E> = Ok(value: T) | Failure(error: E)
}
