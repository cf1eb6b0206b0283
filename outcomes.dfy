/** The Java exceptions the core can raise, as values. */
module Outcomes {

  /** The unchecked exceptions thrown by the core's string and stream operations. */
  datatype Exception =
    | IndexOutOfBounds   // StringIndexOutOfBoundsException from substring or deleteCharAt
    | IllegalArgument    // IllegalArgumentException from Stream.limit with a negative size

  /** A value, or the exception its computation throws. */
  datatype Result<+T> = Success(value: T) | Failure(error: Exception)
}
