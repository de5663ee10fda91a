/** The success-or-failure value that stands for a Python call that either
    returns or raises. */
module Results {
  datatype Result<+T, +E> = Ok(value: T) | Err(error: E)
}
