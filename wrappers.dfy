/** Option and Result values shared by every module of the model. */
module Wrappers {

  /** A value that may be absent (Python's `None`, Go's missing map entry). */
  datatype Option<+T> = None | Some(value: T)

  /** The outcome of an operation that the source ends with an exception. */
  datatype Result<+T, +E> = Ok(value: T) | Err(error: E)
  {
    /** `:-` stops at an `Err` and passes it on. */
    predicate IsFailure() {
      Err?
    }

    function PropagateFailure<U>(): Result<U, E>
      requires Err?
    {
      Err(error)
    }

    function Extract(): T
      requires Ok?
    {
      value
    }
  }
}
