/** Optional values, as the Rust code uses `Option`. */
module Wrappers {

  datatype Option<+T> = None | Some(value: T)

}
