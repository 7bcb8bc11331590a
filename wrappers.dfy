/** Option, Result and Outcome: the model's stand-ins for .NET's null references and exceptions. */
module Wrappers {

  /** A value that may be absent (a .NET null). */
  datatype Option<+T> = None | Some(value: T)

  /** Either a value or the error a .NET method would have thrown. */
  datatype Result<+T, +E> = Success(value: T) | Failure(error: E)

  /** Normal completion, or the error a void .NET method would have thrown. */
  datatype Outcome<+E> = Pass | Fail(error: E)
}
