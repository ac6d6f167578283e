/** Failure-compatible result types shared by every module of the model.
    A Python function that may raise is modelled as returning one of these. */
module Wrappers {

  datatype Option<+T> = None | Some(value: T) {
    predicate IsFailure() { None? }

    function PropagateFailure<U>(): Option<U>
      requires None?
    {
      None
    }

    function Extract(): T
      requires Some?
    {
      value
    }
  }

  datatype Result<+T, +E> = Ok(value: T) | Err(error: E) {
    predicate IsFailure() { Err? }

    function PropagateFailure<U>(): Result<U, E>
      requires Err?
    {
      Err(error)
    }

    function Extract(): T
      requires Ok?
    {
      value
    }
  }

  /** An absent value turned into the given error. */
  function Expect<T, E>(r: Option<T>, e: E): Result<T, E> {
    match r
    case Some(x) => Ok(x)
    case None => Err(e)
  }

  /** An operation that either succeeds with no value or fails with an error. */
  datatype Outcome<+E> = Pass | Fail(error: E)
}
