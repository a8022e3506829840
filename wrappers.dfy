/** Optional values, used for parsed request inputs that may be absent. */
module Wrappers {

  datatype Option<+T> = None | Some(value: T)
}
