/** Failure-carrying values shared by every part of the model. */
module Results {

  /** A value that may be missing: JavaScript `null`/`undefined` or an absent key. */
  datatype Option<+T> = None | Some(value: T)

  /** The outcome of a call that either returns a value or throws an `Error`
      carrying a message. */
  datatype Result<+T> = Ok(value: T) | Err(message: string)
}
