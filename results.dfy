/** Optional values and error-carrying results, used where the Python code
    returns `None` from a lookup or raises an exception. */
module Results {

  datatype Option<+T> = None | Some(value: T)

  datatype Result<+T, +E> = Ok(value: T) | Err(error: E)
}
