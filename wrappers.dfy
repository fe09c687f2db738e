/** Option and Result, standing for nullable C pointers and for a value-or-error return. */
module Wrappers {

  /** A nullable pointer: None is NULL. */
  datatype Option<+T> = None | Some(value: T)

  /** Either the parsed value or the reason it was refused. */
  datatype Result<+T, +E> = Success(value: T) | Failure(error: E)
}
