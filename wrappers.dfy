/** Optional values: a lookup that may find nothing, a descriptor slot a stage may not use. */
module Wrappers {
  datatype Option<+T> = None | Some(value: T)
}
