/** Option and Result, and the Python exceptions the scripts can raise. */
module Wrappers {

  datatype Option<+T> = None | Some(value: T)

  /** The exceptions that end a run of the scripts. */
  datatype PyError =
    | KeyError(key: string)       // a dictionary lookup of a missing key
    | ValueError(text: string)    // strptime on a string that is not a YYYYMMDD date, or a bad unpacking
    | TypeError(text: string)     // a method called on `undefined` in the front-end scripts, or `strptime` given `None`
    | IndexError                  // indexing past the end of a list
    | OverflowError               // date arithmetic beyond 9999-12-31

  datatype Result<+T> = Ok(value: T) | Err(error: PyError)
  {
    predicate IsFailure() { Err? }

    function PropagateFailure<U>(): Result<U>
      requires Err?
    {
      Err(error)
    }

    function Extract(): T
      requires Ok?
    {
      value
    }
  }
}
