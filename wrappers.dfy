/** Optional values, used for lookups that may find nothing and for
    computations that the page script abandons with an exception. */
module Wrappers {

  datatype Option<+T> = None | Some(value: T)
}
