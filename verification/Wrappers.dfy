/** Optional values, used where the program returns a nil pointer or an error. */
module Wrappers {

  datatype Option<+T> = None | Some(value: T)
}
