/** An optional value, for a lookup that can come back empty and a step that can raise. */
module Wrappers {
  datatype Option<T> = None | Some(value: T)
}
