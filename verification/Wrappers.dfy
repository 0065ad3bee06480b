/** Result types shared by every part of the model. */
module Wrappers {

  datatype Option<+T> = None | Some(value: T) {
    predicate IsFailure() { None? }

    function PropagateFailure<U>(): Option<U>
      requires None?
    {
      None
    }

    function Extract(): T
      requires Some?
    {
      value
    }
  }

  /** `CodecError` stands for the one exception type the wire codec throws. */
  datatype Result<+T> = Ok(value: T) | CodecError {
    predicate IsFailure() { CodecError? }

    function PropagateFailure<U>(): Result<U>
      requires CodecError?
    {
      CodecError
    }

    function Extract(): T
      requires Ok?
    {
      value
    }
  }

  /** The outcome of a check that throws when it fails: `:- Need(...)`. */
  datatype Outcome = Pass | Throw {
    predicate IsFailure() { Throw? }

    function PropagateFailure<U>(): Result<U>
      requires Throw?
    {
      CodecError
    }
  }

  function Need(condition: bool): Outcome {
    if condition then Pass else Throw
  }
}
