/** Failure-carrying results shared by every module of the model. */
module Wrappers {

  /** Python's `Optional[T]`: a value or `None`. */
  datatype Option<+T> = None | Some(value: T)

  /** The exceptions the modelled code raises, by kind and message. */
  datatype Error =
    | ValueError(message: string)
    | NameError(name: string)
    | ValidationError(fields: seq<string>)
    | IntegrityError(message: string)
    | StaleDataError(message: string)
    | ApplicationDependencyException(message: string)

  /** Either the value a call returns or the exception it raises. */
  datatype Result<+T> = Success(value: T) | Failure(error: Error)
}
