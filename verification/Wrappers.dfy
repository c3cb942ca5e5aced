/** Optional values, used wherever the Go code returns a value or "not found". */
module Wrappers {
  datatype Option<+T> = None | Some(value: T)
}
