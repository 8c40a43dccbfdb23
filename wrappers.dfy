/** The optional value and the value-or-error result shared by the other modules. */
module Wrappers {

  /** Stands for a Java reference that may be null. */
  datatype Option<+T> = None | Some(value: T)

  /** Either a value or the exception the Java code would throw instead. */
  datatype Result<+R, +E> = Success(value: R) | Failure(error: E)
}
