/** Failure-carrying datatypes shared by every layer of the model. */
module Wrappers {

  /** A value that may be absent, used for inputs such as an injected database fault. */
  datatype Option<+T> = None | Some(value: T)

  /** The (value, error) pair every Go operation returns, with exactly one side present. */
  datatype Result<+T, +E> = Ok(value: T) | Err(error: E)
}
