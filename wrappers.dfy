/** Option, Result and Outcome values for absent Java references and for the
    exceptions the field type raises. */
module Wrappers {

  /** A Java reference that may be null. */
  datatype Option<+T> = None | Some(value: T)

  /** A value, or the exception that replaced it. */
  datatype Result<+R, +E> = Success(value: R) | Failure(error: E)

  /** A completed call with no value, or the exception it raised. */
  datatype Outcome<+E> = Pass | Fail(error: E)
}
