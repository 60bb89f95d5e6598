/** Option and Result values used for the source's `None` and for the
    exceptions it raises or throws. */
module Results {

  datatype Option<+T> = None | Some(value: T)

  datatype Result<+T, +E> = Ok(value: T) | Err(error: E)
}
