/** Results of contract code: a value, an `StdError` returned to the host, or a Rust panic
    (the contracts are built with overflow checks, so an arithmetic overflow is a panic).
    The host reverts the whole transaction in both failing cases. */
module Outcomes {

  datatype StdError = GenericErr(msg: string) | Underflow | Unauthorized

  datatype Outcome<+T> = Ok(value: T) | Err(error: StdError) | Panic {

    predicate IsFailure() {
      !Ok?
    }

    function PropagateFailure<U>(): Outcome<U>
      requires !Ok?
    {
      if Err? then Err(error) else Panic
    }

    function Extract(): T
      requires Ok?
    {
      value
    }
  }

  datatype Option<+T> = None | Some(value: T)
}
