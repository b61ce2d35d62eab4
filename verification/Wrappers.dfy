/** Results that may be missing: a null pointer, an index of -1, a fault. */
module Wrappers {
  datatype Option<+T> = None | Some(value: T)
}
