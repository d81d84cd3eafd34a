/** Failure-compatible wrappers shared by every module of the model. */
module Common {

  /** A value that may be absent: a nullable column or an optional argument. */
  datatype Option<+T> = None | Some(value: T) {

    /** The wrapped value, or `default` when absent (the source's `?? default`). */
    function GetOr(default: T): T {
      match this
      case Some(v) => v
      case None => default
    }
  }

  /** The outcome of an operation that can fail with an error of type E. */
  datatype Result<+T, +E> = Ok(value: T) | Err(error: E)

  function Min(a: int, b: int): int { if a <= b then a else b }

  function Max(a: int, b: int): int { if a >= b then a else b }
}
