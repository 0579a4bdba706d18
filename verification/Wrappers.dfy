/** Shared result types. */
module Wrappers {
  datatype Option<+T> = None | Some(value: T) {
    function GetOr(default: T): T {
      match this
      case Some(v) => v
      case None => default
    }
  }

  /** A Go `(value, error)` pair of which exactly one half is meaningful. */
  datatype Result<+T, +E> = Success(value: T) | Failure(error: E) {
    predicate IsFailure() {
      Failure?
    }

    function PropagateFailure<U>(): Result<U, E>
      requires Failure?
    {
      Failure(error)
    }

    function Extract(): T
      requires Success?
    {
      value
    }
  }

  /**
   * What a Go call does that may also panic: it returns a value, returns an
   * error, or unwinds the stack. A caller that discards an error
   * (`x, _ := f()`) does not survive a panic.
   */
  datatype Outcome<+T, +E> = Ok(value: T) | Err(error: E) | Panic {
    predicate IsFailure() {
      !Ok?
    }

    function PropagateFailure<U>(): Outcome<U, E>
      requires !Ok?
    {
      if Err? then Outcome.Err(error) else Outcome.Panic
    }

    function Extract(): T
      requires Ok?
    {
      value
    }

    /** `x, _ := f()`: the error is dropped and x is the zero value. */
    function OrZero(zero: T): Outcome<T, E> {
      if Err? then Outcome.Ok(zero) else this
    }
  }
}
