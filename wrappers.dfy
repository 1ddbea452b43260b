/** An optional value: the source's "no percent / no tier" cases. */
module Wrappers {
  datatype Option<+T> = None | Some(value: T)
}
