/** Option and Result, the wrappers the rest of the model uses.
    `Option<int>` stands for a JavaScript number that may be NaN (None);
    `Result` stands for a value or a thrown JavaScript error. */
module Wrappers {

  datatype Option<+T> = None | Some(value: T)

  datatype Result<+R, +E> = Success(value: R) | Failure(error: E)
}
