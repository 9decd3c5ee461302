/** Optional values and results with an error, for the source's missing fields and thrown errors. */
module Results {

  datatype Option<T> = None | Some(value: T)

  datatype Result<T, E> = Success(value: T) | Failure(error: E)
}
