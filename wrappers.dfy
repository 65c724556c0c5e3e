/** Failure-compatible wrappers shared by the whole model. */
module Wrappers {

  /** A value that may be absent: a C# nullable reference or a lookup that misses. */
  datatype Option<+T> = None | Some(value: T) {
    function GetOr(default: T): T {
      match this
      case Some(v) => v
      case None => default
    }
  }

  /** The value of an operation that may throw one of the source's exceptions. */
  datatype Result<+R, +E> = Success(value: R) | Failure(error: E)

  /** The outcome of a `void` operation that may throw. */
  datatype Outcome<+E> = Pass | Fail(error: E)
}

/** The exceptions the modelled code throws (or lets escape from the code it calls). */
module Failures {

  datatype Failure =
    | ArgumentException(paramName: string, message: string)
    | ArgumentOutOfRangeException(paramName: string, message: string)
    | InvalidOperationException(message: string)
    | InvalidCastException(message: string)
      /** A failure raised by code outside this model (the server, EF Core, a type conversion). */
    | ExternalFailure(message: string)
  {
    /** `Exception.Message` as the view model shows it; .NET appends the parameter name to
        the message of an argument exception. */
    function Message(): string {
      match this
      case ArgumentException(p, m) => m + " (Parameter '" + p + "')"
      case ArgumentOutOfRangeException(p, m) => m + " (Parameter '" + p + "')"
      case InvalidOperationException(m) => m
      case InvalidCastException(m) => m
      case ExternalFailure(m) => m
    }
  }
}
