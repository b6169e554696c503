/** Optional values, standing in for the C++ out-parameter-plus-bool convention. */
module Wrappers {
  datatype Option<+T> = None | Some(value: T)
}
