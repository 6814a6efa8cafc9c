/** Absence and failure, as the component's JavaScript expresses them with
    `undefined` and with a thrown exception. */
module Wrappers {

  /** A value that may be missing (`undefined` or `null` on the JavaScript side). */
  datatype Option<+T> = None | Some(value: T)

  /** The outcome of a computation that may throw: a value, or the error it threw. */
  datatype Result<+T, +E> = Ok(value: T) | Err(error: E)
}
