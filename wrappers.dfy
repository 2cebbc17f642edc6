/** Option, Result and Poll, shared by the other modules. */
module Wrappers {

  datatype Option<+T> = None | Some(value: T)

  /** Rust's `Result<T, E>`. */
  datatype Result<+T, +E> = Ok(value: T) | Err(error: E)

  /** Rust's `Poll<T>`: `Pending` stands for an `.await` that would suspend
      the calling task in the current state. */
  datatype Poll<+T> = Ready(value: T) | Pending
}
