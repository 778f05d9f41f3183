/** Option and Result, the two wrappers the model uses for JavaScript's
    "absent value" (null / undefined) and for thrown errors. */
module Wrappers {

  datatype Option<+T> = None | Some(value: T)

  datatype Result<+T, +E> = Success(value: T) | Failure(error: E)
}
