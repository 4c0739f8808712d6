/** Optional values and results with an error, as used across the model. */
module Wrappers {

  /** Python's `Optional[T]` / `None`, TypeScript's `T | undefined`. */
  datatype Option<+T> = None | Some(value: T)

  /** A value or the exception the source raises instead. */
  datatype Result<+T, +E> = Ok(value: T) | Err(error: E)

  /** The exceptions the source raises (Python's names; JavaScript's `TypeError` is the same kind). */
  datatype Exception = AttributeError | TypeError | ValueError
}
