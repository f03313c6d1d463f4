/** Option and Result values used for the engine's lookups and command results. */
module Wrappers {

  datatype Option<+T> = None | Some(value: T)

  /** The tagged success/failure result of a command. */
  datatype Result<+T, +E> = Ok(value: T) | Err(error: E)

  /** A command result that carries no payload on success. */
  datatype Outcome<+E> = Pass | Fail(error: E)
}
