/** Optional values: Go's `(value, ok)` pairs and nil pointers become `Option`. */
module Wrappers {

  datatype Option<+T> = None | Some(value: T)

}
