/** Optional values, used where the program has a nullable value or an out-parameter. */
module Wrappers {
  datatype Option<+T> = None | Some(value: T)
}
