/** Failure-compatible wrappers shared by every module of the archive model. */
module Common {

  /** A JavaScript value that may be `null`/`undefined`. */
  datatype Option<+T> = None | Some(value: T) {
    function GetOr(default: T): T {
      match this
      case Some(v) => v
      case None => default
    }
  }

  /** The outcome of a step that may throw: `Err` carries what was thrown. */
  datatype Result<+T, +E> = Ok(value: T) | Err(error: E) {
    predicate IsFailure() { Err? }
    function PropagateFailure<U>(): Result<U, E>
      requires Err?
    {
      Err(error)
    }
    function Extract(): T
      requires Ok?
    {
      value
    }
  }

  /**
   * What a JavaScript step throws: a `TypeError` from reading a property of
   * `null`/`undefined`, or an `Error` raised by the scripts themselves.
   */
  datatype Thrown = TypeError(reading: string) | Error(message: string)
}
