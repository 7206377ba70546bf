/** Optional values: a browser storage slot that may be empty, a promise that may never settle. */
module Wrappers {
  datatype Option<+T> = None | Some(value: T)
}
