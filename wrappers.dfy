/** Optional values, standing in for Python's `None` returns. */
module Wrappers {

  datatype Option<+T> = None | Some(value: T)
}
