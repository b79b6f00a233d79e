/** Optional values: a NULL pointer or NULL string of the source becomes `None`. */
module Wrappers {

  datatype Option<+T> = None | Some(value: T)
}
