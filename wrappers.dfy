/** Result types shared by every module of the model. */
module Wrappers {

  datatype Option<+T> = None | Some(value: T)

  /** The outcome of an action that returns nothing: it succeeds or throws an Error with a message. */
  datatype Outcome = Ok | Err(message: string)

  /** The outcome of an action that returns a value or throws an Error with a message. */
  datatype Result<+T> = Success(value: T) | Failure(message: string)
}
