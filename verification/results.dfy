/** Failure-carrying values shared by the whole model. */
module Results {

  datatype Option<+T> = None | Some(value: T)

  /** The value of a call that either returns or throws. */
  datatype Result<+T, +E> = Ok(value: T) | Err(error: E)

  /** The value of a call that returns nothing or throws. */
  datatype Outcome<+E> = Pass | Fail(error: E)

  /**
   * What a JavaScript `catch` clause can receive: an `Error` object, which
   * carries a message, or any other thrown value.
   */
  datatype Thrown = ErrorObject(message: string) | OtherValue
}
