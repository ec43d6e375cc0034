/** Failure-compatible result types shared by the modules of the inliner. */
module Wrappers {

  datatype Option<+T> = None | Some(value: T)

  /** Either a value, or the message of the error that aborted the computation. */
  datatype Result<+T> = Ok(value: T) | Fail(error: string) {
    predicate IsFailure() { Fail? }

    function PropagateFailure<U>(): Result<U>
      requires Fail?
    {
      Fail(error)
    }

    function Extract(): T
      requires Ok?
    {
      value
    }
  }

  /** Concatenates two pieces of text, the first error (in text order) winning. */
  function Concat(a: Result<string>, b: Result<string>): Result<string>
  {
    match a
    case Fail(e) => Fail(e)
    case Ok(x) =>
      match b
      case Fail(e) => Fail(e)
      case Ok(y) => Ok(x + y)
  }

  /** Puts `p` in front of the text in `r`, or passes its error through. */
  function Prepend(p: string, r: Result<string>): Result<string>
  {
    Concat(Ok(p), r)
  }
}
