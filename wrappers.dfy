/** Optional values: JavaScript's `null` and Python's `None`, and an absent search result. */
module Wrappers {

  datatype Option<+T> = None | Some(value: T)
}
