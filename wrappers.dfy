/** Optional values and results with an error, as the engine's C++ code returns
    them through `bool` results, NULL pointers and out-parameters. */
module Wrappers {

  datatype Option<+T> = None | Some(value: T)

  datatype Result<+T, +E> = Success(value: T) | Failure(error: E)
}
