/** Null references and the exceptions the auto-registration code throws.

    The .NET code reports every failure by throwing. The model returns a
    `Result` instead; a call that throws has no effect on the value it was
    called on, so the caller's old value is the state after the failure. */
module Errors {

  /** A reference that may be null. */
  datatype Option<+T> = None | Some(value: T)

  /** The exceptions the modelled code can raise. */
  datatype Error =
    | ArgumentNull(param: string)  // ArgumentNullException; "" when no parameter name is given
    | NullReference                // NullReferenceException: a member read through an unset type
    | NoElements                   // InvalidOperationException of First()/Single() on an empty sequence
    | MoreThanOneElement           // InvalidOperationException of Single() on a longer sequence

  /** A value, or the exception thrown instead of producing it. */
  datatype Result<+T> = Ok(value: T) | Err(error: Error) {

    predicate IsFailure() {
      Err?
    }

    function PropagateFailure<U>(): Result<U>
      requires Err?
    {
      Err(error)
    }

    function Extract(): T
      requires Ok?
    {
      value
    }
  }
}
