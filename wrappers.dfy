/** Failure-compatible wrappers shared by the whole model. */
module Wrappers {

  datatype Option<+T> = Nothing | Some(value: T)

  /** A computation that either produces a value or raises a Python exception,
      described by its class and message. */
  datatype Result<+T> = Ok(value: T) | Err(error: Error) {
    predicate IsFailure() { Err? }

    function PropagateFailure<U>(): Result<U>
      requires Err?
    {
      Err(error)
    }

    function Extract(): T
      requires Ok?
    {
      value
    }
  }

  /** The Python exception classes the modelled code raises. */
  datatype Error =
    | KeyError(key: string)
    | ValueError(message: string)
    | TypeError(message: string)
    | IndexError
    | EOFError
    | IOError(path: string)
}
