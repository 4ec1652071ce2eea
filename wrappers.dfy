/** Failure-carrying wrappers shared by the model: Option for Kotlin's nullable
    results, Result for the calculators' error messages. */
module Wrappers {

  datatype Option<T> = None | Some(value: T)

  datatype Result<T, E> = Success(value: T) | Failure(error: E)
}
