/** The two result shapes the models share: a value that may be missing, and a
    computation that may fail with a reason. */
module Options {

  datatype Option<+T> = None | Some(value: T)

  datatype Result<+T, +E> = Success(value: T) | Failure(error: E)
}
