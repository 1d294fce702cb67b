/** Optional values, used where the source uses a possibly-null index or reference. */
module Wrappers {
  datatype Option<+T> = None | Some(value: T)
}
