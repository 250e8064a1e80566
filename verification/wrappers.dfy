/** Failure-carrying results used wherever the Java code can throw. */
module Wrappers {

  datatype Option<+T> = None | Some(value: T) {
    /** The value, or `default` when absent. */
    function GetOr(default: T): T {
      match this
      case Some(v) => v
      case None => default
    }
  }

  /** Either the value an operation returns or the exception it throws. */
  datatype Result<+R, +E> = Success(value: R) | Failure(error: E)

  /** The outcome of an operation that returns nothing but may throw. */
  datatype Outcome<+E> = Pass | Fail(error: E)

  /** The Java exceptions the carousel can raise. */
  datatype Fault =
    | ArithmeticException      // integer division by zero
    | NullPointerException     // dereference of a missing view or adapter
    | IllegalStateException    // a page that does not fill the carousel
}
