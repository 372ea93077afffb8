/** The outcome of an operation that Python ends by raising an exception. */
module Results {

  datatype Result<+T, +E> = Ok(value: T) | Err(error: E)
}
