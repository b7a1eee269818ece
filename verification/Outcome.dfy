/** The two result shapes shared by the models. */
module Outcome {
  datatype Option<+T> = None | Some(value: T)

  /** A value, or the reason the source raises or returns instead of one. */
  datatype Result<+T, +E> = Ok(value: T) | Err(error: E)
}
