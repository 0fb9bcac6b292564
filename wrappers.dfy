/** Optional values and failure-carrying results, standing in for C#'s nullable
    references and thrown exceptions. */
module Wrappers {

  /** An optional value: `None` plays the part of a null reference. */
  datatype Option<+T> = None | Some(value: T)

  /** A value-returning step that either produces a value or raises an error. */
  datatype Result<+T, +E> = Ok(value: T) | Err(error: E)

  /** A step that returns nothing: it either completes or raises an error. */
  datatype Outcome<+E> = Pass | Fail(error: E)
}
