/** Optional values: a request field or a table column that may be absent. */
module Wrappers {

  datatype Option<+T> = None | Some(value: T)
}
