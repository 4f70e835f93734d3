/** Failure-compatible wrapper types shared by every module of the model. */
module Wrappers {

  /** An optional value, Rust's `Option`. */
  datatype Option<+T> = None | Some(value: T) {

    /** The wrapped value, or `default` when there is none (Rust's `unwrap_or`). */
    function GetOr(default: T): T {
      match this
      case Some(v) => v
      case None => default
    }
  }

  /** A value or an error, Rust's `Result`; usable with `:-`. */
  datatype Result<+T, +E> = Success(value: T) | Failure(error: E) {

    predicate IsFailure() {
      Failure?
    }

    function PropagateFailure<U>(): Result<U, E>
      requires Failure?
    {
      Failure(error)
    }

    function Extract(): T
      requires Success?
    {
      value
    }
  }

  /** The outcome of an operation that returns nothing on success, Rust's `Result<(), E>`. */
  datatype Outcome<+E> = Pass | Fail(error: E)
}
