/** Optional values: a lookup that may find nothing (JavaScript's `null`/`undefined`). */
module Wrappers {
  datatype Option<T> = None | Some(value: T)
}
