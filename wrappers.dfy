/** Option and Result values, used where the service returns `undefined`/`null`
    or signals a failed load. */
module Wrappers {

  /** A value that may be absent (`undefined` or `null` in the service). */
  datatype Option<+T> = None | Some(value: T)

  /** The outcome of an operation that either yields a value or fails with an error. */
  datatype Result<+T, +E> = Ok(value: T) | Err(error: E)
}
