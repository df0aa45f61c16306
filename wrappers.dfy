/** Optional values, used where the C code returns NULL or a failure flag. */
module Wrappers {
  datatype Option<+T> = None | Some(value: T)
}
