/** Optional values: Python's None and jQuery's empty selection. */
module Wrappers {
  datatype Option<T> = None | Some(value: T)
}
