/**
 * Failure-carrying results used across the model. The Java code reports
 * argument and state errors by throwing IllegalArgumentException or
 * IllegalStateException; here they become an `Err` value that carries the
 * same exception kind and message.
 */
module Wrappers {

  datatype Option<+T> = None | Some(value: T)

  /** The two exception kinds the core throws on bad arguments or state. */
  datatype Error =
    | IllegalArgument(message: string)
    | IllegalState(message: string)

  datatype Result<+T> = Ok(value: T) | Err(error: Error) {
    predicate IsFailure() { Err? }

    function PropagateFailure<U>(): Result<U>
      requires Err?
    {
      Err(error)
    }

    function Extract(): T
      requires Ok?
    {
      value
    }
  }

  /** A Result without a value, for operations that return void in Java. */
  datatype Outcome = Pass | Fail(error: Error)
}
