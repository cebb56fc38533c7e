/** Failure-carrying datatypes used throughout the model: an optional value
    and a value-or-error result (the model's stand-in for Python exceptions). */
module Results {

  /** Either nothing or one value. */
  datatype Option<+T> = None | Some(value: T)

  /** Either a success value or the error that was raised instead. */
  datatype Result<+T, +E> = Ok(value: T) | Err(error: E)
}
