/** Option and Result, the two failure-compatible wrappers the model uses
    in place of Java's null and of thrown exceptions. */
module Wrappers {

  /** An optional value; `None` stands for a Java null reference. */
  datatype Option<+T> = None | Some(value: T)

  /** Either a value or the error a Java method would have thrown. */
  datatype Result<+T, +E> = Success(value: T) | Failure(error: E) {

    predicate IsFailure() {
      Failure?
    }

    function PropagateFailure<U>(): Result<U, E>
      requires Failure?
    {
      Failure(error)
    }

    function Extract(): T
      requires Success?
    {
      value
    }
  }
}
