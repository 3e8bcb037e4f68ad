/** Optional values, for preferences that may be unset and for values that are
    present only in some states. */
module Wrappers {

  datatype Option<+T> = None | Some(value: T)
}
