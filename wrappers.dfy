/** Optional values, used where the source returns an iterator that may be `end()`. */
module Wrappers {
  datatype Option<+T> = None | Some(value: T)
}
