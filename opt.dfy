/** Optional values: JavaScript's `null` next to a real value. */
module Opt {
  datatype Option<+T> = None | Some(value: T)
}
