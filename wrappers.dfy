/** Optional values: the source's `null`-or-value state (`number | null`, `string | null`). */
module Wrappers {

  datatype Option<+T> = None | Some(value: T)
}
