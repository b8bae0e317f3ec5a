/** The two failure-carrying datatypes the model uses for absent values and raised errors. */
module Outcomes {

  datatype Option<+T> = None | Some(value: T)

  /** `Failure` stands for a raised exception; `error` is the exception's message. */
  datatype Result<+T, +E> = Success(value: T) | Failure(error: E) {

    predicate IsFailure() {
      Failure?
    }

    function PropagateFailure<U>(): Result<U, E>
      requires Failure?
    {
      Failure(error)
    }

    function Extract(): T
      requires Success?
    {
      value
    }
  }
}
