/** Failure-carrying values shared by the whole model: an optional value and
    the outcome of a handler that either produces a value or reports an error. */
module Results {

  datatype Option<+T> = None | Some(value: T)

  datatype Result<+R, +E> = Success(value: R) | Failure(error: E)
}
