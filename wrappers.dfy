/** Optional values: a record that may be missing, a request field that may be absent. */
module Wrappers {

  datatype Option<+T> = None | Some(value: T)
}
