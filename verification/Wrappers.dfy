/** Optional values, and results that `:-` can hand on. */
module Wrappers {

  datatype Option<+T> = None | Some(value: T) {
    function GetOr(default: T): T {
      if Some? then value else default
    }
  }

  datatype Result<+R, +E> = Success(value: R) | Failure(error: E) {
    predicate IsFailure() {
      Failure?
    }

    function PropagateFailure<U>(): Result<U, E>
      requires IsFailure()
    {
      Failure(error)
    }

    function Extract(): R
      requires !IsFailure()
    {
      value
    }

    function MapFailure<F>(f: E -> F): Result<R, F> {
      if Success? then Success(value) else Failure(f(error))
    }
  }
}
