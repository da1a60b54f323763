/** Optional values: a database or file lookup that finds nothing, or a step that raised. */
module Wrappers {
  datatype Option<+T> = None | Some(value: T)
}
