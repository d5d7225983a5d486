/** Optional values: a lookup that may miss, a store read that may fail. */
module Wrappers {
  datatype Option<+T> = None | Some(value: T)
}
