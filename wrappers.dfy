/** Optional values, used for the optional kind guard of a rule. */
module Wrappers {

  datatype Option<+T> = None | Some(value: T)
}
