/** The exceptions the kernel throws, a Result type that carries either a
    value or the exception a call would have thrown, and an Option type for
    values that may be absent. */
module Errors {

  /** The C++ exception classes the modelled code raises. */
  datatype Exception =
    | RuntimeError(what: string)     // std::runtime_error
    | OutOfRange                     // std::out_of_range, raised by std::vector::at
    | LengthError                    // std::length_error, raised by std::vector(n) for a negative n
    | InvalidArgument(what: string)  // std::invalid_argument
    | GenericException               // a bare std::exception

  /** Either the value a call returns or the exception it throws. */
  datatype Result<+T> = Success(value: T) | Failure(error: Exception) {

    predicate IsFailure() {
      Failure?
    }

    function PropagateFailure<U>(): Result<U>
      requires Failure?
    {
      Failure(error)
    }

    function Extract(): T
      requires Success?
    {
      value
    }
  }

  datatype Option<+T> = None | Some(value: T)
}
