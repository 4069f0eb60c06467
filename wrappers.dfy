/** Optional values: a missing row, a missing attribute, an absent key. */
module Wrappers {

  datatype Option<+T> = None | Some(value: T)
}
