/**
 * The decode failures the codec reports, and the result type that carries
 * them (Rust's `Result<T, Error>` with `?` becoming `:-`).
 */
module Errors {
  import opened ByteOrder

  datatype Error =
    | Io                                  // the source ran out of bytes (or failed)
    | Utf8Error                           // a string payload is not UTF-8
    | UnexpectedValueForUnit(found: byte)
    | UnexpectedValueForBool(found: byte)
    | UnexpectedValueForOption(found: byte)
    | SameKeyAppearsTwiceInMap

  datatype Result<+T> = Ok(value: T) | Err(error: Error) {
    predicate IsFailure() {
      Err?
    }

    function PropagateFailure<U>(): Result<U>
      requires Err?
    {
      Err(error)
    }

    function Extract(): T
      requires Ok?
    {
      value
    }
  }
}
