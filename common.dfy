/** The failure-carrying datatypes the rest of the model returns. */
module Common {

  /** A value that may be absent (`undefined`, `null`, or a query that found nothing). */
  datatype Option<T> = None | Some(value: T)

  /** The value of a call that either returns or throws an `Error` with a message. */
  datatype Result<T> = Ok(value: T) | Err(message: string)
}
