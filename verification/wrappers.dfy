/** Optional values: a JavaScript `undefined` / SQL `NULL`, or a present value. */
module Wrappers {
  datatype Option<+T> = None | Some(value: T)
}
