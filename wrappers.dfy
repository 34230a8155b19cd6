/** Optional values, standing in for JavaScript's `undefined` / absent map entries. */
module Wrappers {

  datatype Option<+T> = None | Some(value: T)
}
