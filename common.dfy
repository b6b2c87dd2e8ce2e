/** Option and Result, used where a JavaScript value may be absent or an operation may fail. */
module Common {

  datatype Option<+T> = None | Some(value: T)

  datatype Result<+T, +E> = Success(value: T) | Failure(error: E)
}
