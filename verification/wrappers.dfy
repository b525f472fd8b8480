/** Failure-compatible wrappers shared by every module: `Option` stands for a
    Java reference that may be null, `Result` for a call that may throw. */
module Wrappers {

  datatype Option<+T> = None | Some(value: T) {

    /** The value, or `default` when absent. */
    function GetOr(default: T): T {
      match this
      case Some(v) => v
      case None => default
    }
  }

  /** The classes of the Java exceptions the modelled code throws, catches
      or lets escape. */
  datatype ExceptionKind =
    | IllegalState
    | Runtime
    | IllegalArgument
    | IndexOutOfBounds
    | NullPointer
    | ClassCast
    | Io

  /** A thrown exception: its class and its `getMessage()`, which may be null. */
  datatype Thrown = Thrown(kind: ExceptionKind, message: Option<string>) {

    /** `"..." + e.getMessage()`: string concatenation renders null as "null". */
    function MessageText(): string {
      message.GetOr("null")
    }
  }

  datatype Result<+T> = Ok(value: T) | Err(error: Thrown) {

    predicate IsFailure() {
      Err?
    }

    function PropagateFailure<U>(): Result<U>
      requires Err?
    {
      Err(error)
    }

    function Extract(): T
      requires Ok?
    {
      value
    }
  }
}
