/**
 * Failure signalling shared by the containers and the network.
 * The library raises one of four exception classes; here an operation that can
 * fail returns a Result (or an Outcome when it has no value to return).
 */
module Errors {

  /** A pointer that may be NULL. */
  datatype Option<T> = None | Some(value: T)

  /** The exception classes named in the library's documentation. */
  datatype Exception =
    | DuplicateElement
    | ElementNotFound
    | OperationNotSupported
    | WrongParameter

  /** The value of an operation that returns something, or the exception it throws. */
  datatype Result<T> = Success(value: T) | Failure(error: Exception)

  /** The completion of an operation that returns nothing. */
  datatype Outcome = Pass | Fail(error: Exception)
}
