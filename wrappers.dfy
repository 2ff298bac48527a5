/** Option and Result values, and the ways a run of the populator can abort. */
module Wrappers {

  datatype Option<+T> = None | Some(value: T) {
    function GetOr(default: T): T {
      match this
      case Some(v) => v
      case None => default
    }
  }

  /** Failure-compatible result, usable with `:-`. */
  datatype Result<+T, +E> = Ok(value: T) | Err(error: E) {
    predicate IsFailure() {
      Err?
    }

    function PropagateFailure<U>(): Result<U, E>
      requires Err?
    {
      Err(error)
    }

    function Extract(): T
      requires Ok?
    {
      value
    }
  }

  /** Each error is a point where the script stops: an uncaught Python
      exception or the explicit `sys.exit()`. */
  datatype Error =
    | MissingField(name: string)        // KeyError on the attribute dictionary
    | FieldTooShort(name: string)       // IndexError reading the prefix character
    | NotANumber(name: string)          // ValueError from float()
    | UnknownPrefix(prefix: string)     // KeyError on the prefix table
    | UnsupportedCategory               // sys.exit() for an unknown category
    | ContinuationWithoutField          // UnboundLocalError: continuation row before any label
}
