/** Optional values: a `data-src` that may be absent, an option argument that may be `null`. */
module Wrappers {

  datatype Option<+T> = None | Some(value: T)

}
