/** Optional values: the model's stand-in for a Kotlin value that may be absent
    or a call that may throw. */
module Wrappers {
  datatype Option<+T> = None | Some(value: T)
}
