/** Option and Result, the shapes every operation of the model returns. */
module Results {

  /** A value that may be absent (JavaScript's `undefined` / `null`). */
  datatype Option<+T> = None | Some(value: T) {
    function GetOr(default: T): T {
      match this
      case Some(v) => v
      case None => default
    }
  }

  /** The outcome of an operation that may throw: `Err` carries the thrown error's message. */
  datatype Result<+T> = Ok(value: T) | Err(message: string)
}
