/** Optional values, used for the optional keys of an endpoint record. */
module Wrappers {

  datatype Option<+T> = None | Some(value: T)
}
