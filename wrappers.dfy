/** Optional values: what the JavaScript source expresses with `null` or `undefined`. */
module Wrappers {
  datatype Option<+T> = None | Some(value: T)
}
