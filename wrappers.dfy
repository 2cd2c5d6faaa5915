/** Option and Result values for the error paths of the entry's steps. */
module Wrappers {

  datatype Option<+T> = None | Some(value: T)

  /** The exceptions the Python code raises instead of returning. */
  datatype Error =
    | EmptySeparator   // str.split with an empty delimiter raises ValueError
    | InvalidDate      // strptime refuses the day/month/year it was given

  datatype Result<+T> = Ok(value: T) | Err(error: Error) {
    predicate IsFailure() { Err? }

    function PropagateFailure<U>(): Result<U>
      requires Err?
    {
      Err(error)
    }

    function Extract(): T
      requires Ok?
    {
      value
    }
  }
}
