/** Optional values and the success-or-error outcome every service operation
    reports. */
module Outcome {

  datatype Option<T> = None | Some(value: T)

  datatype Result<T> = Success(value: T) | Failure(error: seq<char>)
}
