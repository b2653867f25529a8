/** Optional values, standing for Go's nil-able pointers and error results. */
module Wrappers {
  datatype Option<+T> = None | Some(value: T)
}
