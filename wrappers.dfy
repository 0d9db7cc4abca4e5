/** Optional values and results, as used by the plugin's optional record
    fields (`thumbnail?`, `users?`, ...) and its failing fetch. */
module Wrappers {

  datatype Option<+T> = None | Some(value: T)

  datatype Result<+R, +E> = Success(value: R) | Failure(error: E)
}
