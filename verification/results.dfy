/** The success-or-failure value every fallible operation of the front end returns, and an optional value. */
module Results {
  datatype Result<+T, +E> = Ok(value: T) | Err(error: E)

  datatype Option<+T> = None | Some(value: T)
}
