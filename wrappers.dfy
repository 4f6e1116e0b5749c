/** Optional values and promise outcomes used across the model. */
module Wrappers {

  /** A value that may be absent (`undefined` in the source). */
  datatype Option<+T> = None | Some(value: T)

  /** The value a promise resolves to, or the error it rejects with. */
  datatype Result<+T, +E> = Ok(value: T) | Err(error: E)

  /** A promise of `void` that resolves or rejects with an error. */
  datatype Outcome<+E> = Pass | Fail(error: E)
}
