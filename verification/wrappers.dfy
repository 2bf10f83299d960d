/** Optional values and success-or-error results, used wherever the program
    either gets a value or falls back to an error path. */
module Wrappers {

  datatype Option<+T> = None | Some(value: T)

  datatype Result<+R, +E> = Success(value: R) | Failure(error: E)
}
