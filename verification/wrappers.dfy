/** Wrappers used throughout the model: `Option` stands for
    a value that may be absent (pandas' NaN / Python's None), `Result` for a
    computation that may raise. */
module Wrappers {

  datatype Option<+T> = None | Some(value: T)

  datatype Result<+R, +E> = Success(value: R) | Failure(error: E)
}
