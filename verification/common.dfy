/** Failure-carrying datatypes shared by every component of the console. */
module Common {

  /** Rust's `Option`. */
  datatype Option<+T> = None | Some(value: T)

  /** The `anyhow::Error` a handler forwards; only its message is kept. */
  datatype Error = Error(message: string)

  /** A handler's `Result<T>`: `Err` is what `?` propagates to the error sink. */
  datatype Result<+T> = Ok(value: T) | Err(error: Error)

  /** The response of a mutation whose payload the console ignores. */
  datatype Outcome = Pass | Fail(error: Error)
}
