/** Small failure-compatible datatypes shared by every module of the model. */
module Wrappers {

  /** Rust's `Option<T>`. Failure-compatible, so `:-` chains a run of
      `Option`-returning calendar setters the way `.unwrap()` chains do. */
  datatype Option<+T> = None | Some(value: T) {
    predicate IsFailure() {
      None?
    }

    function PropagateFailure<U>(): Option<U>
      requires None?
    {
      None
    }

    function Extract(): T
      requires Some?
    {
      value
    }
  }

  /** Rust's `Result<T, E>`. */
  datatype Result<+T, +E> = Ok(value: T) | Err(error: E)

  /** What a computation that may `panic!` (an `.unwrap()` on `None`) or
      that the model bounds with fuel ends in. */
  datatype Outcome<+T> = Returned(value: T) | Panicked | OutOfFuel
}
