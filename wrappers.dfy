/** `Option` and `Result`, shared by the model's modules. */
module Wrappers {

  /** A value that may be missing: an absent storage key, a blob that does not parse. */
  datatype Option<+T> = None | Some(value: T)

  /** The outcome of an operation that can fail with an error the caller sees. */
  datatype Result<+T, +E> = Ok(value: T) | Err(error: E)
}
