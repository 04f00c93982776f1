/** Failure-carrying values shared by every module: Python's raised exceptions
    and C++'s undefined reads become explicit error values. */
module Results {

  datatype Option<+T> = None | Some(value: T)

  /** A computation that either yields a value or fails with the message the
      source would raise. */
  datatype Result<+T> = Ok(value: T) | Err(message: string) {
    predicate IsFailure() { Err? }

    function PropagateFailure<U>(): Result<U>
      requires Err?
    {
      Err(message)
    }

    function Extract(): T
      requires Ok?
    {
      value
    }
  }

  /** Success or a failure message, for operations that return nothing. */
  datatype Outcome = Pass | Fail(message: string)
}
