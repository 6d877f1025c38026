/** Optional values, used wherever the source either produces a value or
    takes a failure path. */
module Wrappers {

  datatype Option<+T> = None | Some(value: T)
}
