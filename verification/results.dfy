/** Success/failure values standing in for the exceptions the trader raises. */
module Results {

  datatype Result<+T, +E> = Ok(value: T) | Err(error: E)
}
