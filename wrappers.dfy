/** The ordinary tagged optional value and a success-or-error result. */
module Wrappers {

  /** Rust's `Option<T>`: the tagged optional value a `ControlledOption` converts to and from. */
  datatype Option<+T> = None | Some(value: T)

  /** A generation result: the derived implementation, or the compile error message. */
  datatype Result<+R, +E> = Ok(value: R) | Err(error: E)
}
