/** Optional values and error-carrying results, used wherever the Python code
    returns `None` or raises an exception that a caller observes. */
module Results {

  datatype Option<+T> = None | Some(value: T)

  datatype Result<+T, +E> = Success(value: T) | Failure(error: E)
}
