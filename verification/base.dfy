/** Shared vocabulary of the adapter: optional values, results that carry an
    error, and the error value itself. Go's `error` is an interface whose only
    observable part across the native boundary is its message; the kinds below
    record where an error came from so that contracts can say which path
    produced it. */
module Outcomes {

  datatype Option<+T> = None | Some(value: T)

  /** Every error the adapter can produce or forward. All kinds carry the
      human-readable message that `err.Error()` would return in Go. */
  datatype Error =
    | NativeError(message: string)     // a message handed back by the native library
    | MarshalError(message: string)    // the value cannot be written as JSON text
    | UnmarshalError(message: string)  // the text is not JSON the value model can hold
    | UsageError(message: string)      // a misconfiguration detected by the adapter itself

  /** A value or an error; usable with `:-`. */
  datatype Result<+T> = Success(value: T) | Failure(error: Error) {
    predicate IsFailure() {
      Failure?
    }

    function PropagateFailure<U>(): Result<U>
      requires Failure?
    {
      Failure(error)
    }

    function Extract(): T
      requires Success?
    {
      value
    }
  }
}
