/** Optional values: JavaScript's `null` (no boss, no next level) and `undefined`. */
module Wrappers {

  datatype Option<+T> = None | Some(value: T)
}
