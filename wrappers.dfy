/** Helper datatypes shared by the other modules. */
module Wrappers {

  /** A value that may be absent (`undefined` in JavaScript, `Option` in Rust). */
  datatype Option<T> = None | Some(value: T)

  /** The outcome of a handler: a value, or the reason the handler panicked. */
  datatype Result<T, E> = Ok(value: T) | Err(error: E)
}
