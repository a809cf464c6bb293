/** Option type shared by the models: `None` stands for Python's `None`
    return or for a failed lookup. */
module Wrappers {

  datatype Option<+T> = None | Some(value: T)

  /** The outcome of an operation that raises on bad input. */
  datatype Result<+T, +E> = Success(value: T) | Failure(error: E)
}
