/** Optional values, standing in for JavaScript's `undefined` and optional fields. */
module Wrappers {

  datatype Option<+T> = None | Some(value: T)
}
