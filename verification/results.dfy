/** Failure-carrying values shared by every module of the model. */
module Results {

  /** An optional value: a lookup that may miss. */
  datatype Option<+T> = None | Some(value: T)

  /** The outcome of an operation that can fail with an error message. */
  datatype Result<+T> = Ok(value: T) | Err(message: string)
}
