/** Optional values, for the arguments the registry accepts as `None`. */
module Wrappers {

  datatype Option<+T> = None | Some(value: T)
}
