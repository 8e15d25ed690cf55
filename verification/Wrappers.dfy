/** Optional values, for results that come with an error or a nil pointer. */
module Wrappers {

  datatype Option<+T> = None | Some(value: T)
}
