/** Errors raised by the modelled code, one constructor per Python exception
    class the core raises, and a failure-compatible Result so that the
    modelled functions can propagate them with `:-`.
 */
module Errors {

  datatype Error =
    | RuntimeError(message: string)
    | NotImplementedError(message: string)
    | ValueError(message: string)
    | IndexError(message: string)
    | NameError(message: string)
    | ValidationError(message: string)

  datatype Result<+T> = Ok(value: T) | Err(error: Error) {

    predicate IsFailure() {
      Err?
    }

    function PropagateFailure<U>(): Result<U>
      requires Err?
    {
      Err(error)
    }

    function Extract(): T
      requires Ok?
    {
      value
    }
  }

  datatype Option<+T> = None | Some(value: T)
}
