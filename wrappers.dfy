/** Optional values and results with the Java exception kinds that the modelled code throws. */
module Wrappers {
  /** A Java reference that may be null. */
  datatype Option<+T> = None | Some(value: T)

  /** The unchecked exception classes raised by the modelled code. */
  datatype Exception =
    | IllegalArgument
    | IllegalState
    | IndexOutOfBounds
    | NullPointer
    | IO
    | Runtime
    /** Any other exception, such as one a filter's own code throws. */
    | Other

  /** The outcome of a Java call that may throw. */
  datatype Result<+T> = Ok(value: T) | Err(error: Exception)
}
