/** Optional values: a C string that may be NULL, a configuration key that may be absent. */
module Wrappers {
  datatype Option<+T> = None | Some(value: T)
}
