/** Small failure-carrying datatypes shared by the other modules. */
module Wrappers {

  /** A value that may be missing: JavaScript's NaN, a missing `secure_url`,
      a remote call that threw. */
  datatype Option<+T> = None | Some(value: T)

  /** The outcome of a service call: a value, or the error it throws. */
  datatype Result<+T, +E> = Ok(value: T) | Err(error: E)
}
