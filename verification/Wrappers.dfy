/** The two result types shared by all components. */
module Wrappers {
  datatype Option<+T> = None | Some(value: T)

  /** A value, or the exception or error that the call ended with. */
  datatype Result<+T> = Ok(value: T) | Err(error: string) {
    predicate IsFailure() {
      Err?
    }

    function PropagateFailure<U>(): Result<U>
      requires Err?
    {
      Err(error)
    }

    function Extract(): T
      requires Ok?
    {
      value
    }
  }
}
