/** The exceptions the library raises, and the failure-compatible result types
    that stand for "returns normally or throws". */
module Errors {

  /** One constructor per exception class the library throws, plus PHP's own
      TypeError, which strict typing raises when a GD call receives a non-int. */
  datatype Error =
    | InvalidException
    | MissingException
    | GenerateImageException
    | ValidationException(read: Option<string>, expected: string)
    | UnsupportedExtensionException(extension: string)
    | UnexpectedValueException(value: string)
    | TypeError

  datatype Option<+T> = None | Some(value: T)

  /** The value a PHP call returns, or the exception it throws. */
  datatype Result<+T> = Ok(value: T) | Err(error: Error) {
    predicate IsFailure() { Err? }

    function PropagateFailure<U>(): Result<U>
      requires Err?
    {
      Err(error)
    }

    function Extract(): T
      requires Ok?
    {
      value
    }
  }

  /** The outcome of a PHP call declared `void`. */
  datatype Outcome = Pass | Fail(error: Error) {
    predicate IsFailure() { Fail? }

    function PropagateFailure(): Outcome
      requires Fail?
    {
      this
    }
  }
}
