/** Option, and the two shapes a JavaScript operation that may throw takes here:
    a value or the message of the Error it throws. */
module Wrappers {

  datatype Option<+T> = None | Some(value: T)

  /** The value an operation returns, or the message of the Error it throws. */
  datatype Result<+T> = Ok(value: T) | Err(message: string)

  /** An operation returning nothing either completes or throws an Error with a message. */
  datatype Outcome = Pass | Fail(message: string)
}
