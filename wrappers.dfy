/** Optional values and results with an error, used where the bot's code
    either has no value (no guild, no send failure) or raises. */
module Wrappers {

  datatype Option<+T> = None | Some(value: T)

  datatype Result<+R, +E> = Success(value: R) | Failure(error: E)
}
