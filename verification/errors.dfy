/**
 * The error kinds of the interpreter and the wrappers that carry them.
 *
 * `ParseError` and `TypeMismatch` are the two exception classes of the
 * interpreter; `KeyError` is what indexing a dictionary with a missing key
 * raises. Each carries the message the interpreter attaches to it.
 */
module Errors {

  datatype Error =
    | ParseError(message: string)
    | TypeMismatch(message: string)
    | KeyError(key: string)

  datatype Option<+T> = None | Some(value: T)

  /** A computation that either returns a value or raises without touching any state. */
  datatype Result<+T> = Ok(value: T) | Err(error: Error)

  /**
   * A computation on mutable state that may raise AFTER it has already
   * changed the state: both constructors carry the state as it is when the
   * call returns or raises.
   */
  datatype Outcome<+S> = Normal(state: S) | Thrown(state: S, error: Error)
}
