/** Optional values, used where the source returns `null`/`undefined` or `NaN`. */
module Wrappers {

  datatype Option<+T> = None | Some(value: T)
}
