/** Optional values, standing in for the host's `?.` / `undefined` fields. */
module Wrappers {

  /** A value that may be absent, like a comment's `body`. */
  datatype Option<+T> = None | Some(value: T)
}
