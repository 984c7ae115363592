/** Failure-compatible result types shared by the other modules. */
module Wrappers {

  /** An optional value: a file that may or may not be written. */
  datatype Option<+T> = None | Some(value: T)

  /** The outcome of a step that can abort the conversion run. */
  datatype Result<+T, +E> = Ok(value: T) | Err(error: E) {

    predicate IsFailure() {
      Err?
    }

    function PropagateFailure<U>(): Result<U, E>
      requires Err?
    {
      Err(error)
    }

    function Extract(): T
      requires Ok?
    {
      value
    }
  }
}
