/** Failure-compatible result types shared by every module of the model. */
module Wrappers {

  /** An optional value, standing for Rust's `Option` and for Java's nullable references. */
  datatype Option<+T> = None | Some(value: T) {
    predicate IsFailure() { None? }

    function PropagateFailure<U>(): Option<U>
      requires None?
    {
      None
    }

    function Extract(): T
      requires Some?
    {
      value
    }

    /** Rust's `unwrap_or`. */
    function GetOr(default: T): T {
      match this
      case Some(v) => v
      case None => default
    }
  }

  /** A value or an error, standing for Rust's `Result` and for a Java method that may throw. */
  datatype Result<+R, +E> = Ok(value: R) | Err(error: E) {
    predicate IsFailure() { Err? }

    function PropagateFailure<U>(): Result<U, E>
      requires Err?
    {
      Err(error)
    }

    function Extract(): R
      requires Ok?
    {
      value
    }

    /** Rust's `unwrap_or`: the value, or the default on any error. */
    function GetOr(default: R): R {
      match this
      case Ok(v) => v
      case Err(_) => default
    }

    /** Rust's `ok()`: drop the error. */
    function ToOption(): Option<R> {
      match this
      case Ok(v) => Some(v)
      case Err(_) => None
    }
  }
}
