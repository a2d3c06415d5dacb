/** Optional values and results shared by every module of the model. */
module Wrappers {

  /** A value that may be absent: Python's `None`, JavaScript's `null`/`undefined`. */
  datatype Option<+T> = None | Some(value: T) {
    function GetOr(default: T): T {
      match this
      case Some(v) => v
      case None => default
    }
  }

  /** The exceptions the modelled Python and JavaScript code can raise. */
  datatype Error =
    | FileNotFound(path: string)   // open() on a path that does not exist
    | ZeroDivisionError            // a division by zero
    | IndexError                   // a list index out of range
    | TypeError                    // iterating over a value that is not iterable
    | AttributeError               // calling a string method on a non-string value

  /** The outcome of an operation that either returns a value or raises. */
  datatype Result<+T> = Success(value: T) | Failure(error: Error)
}
