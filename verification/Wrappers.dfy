/** A value that may be absent: a null pointer, a miss, an alarm that is not set. */
module Wrappers {
  datatype Option<+T> = None | Some(value: T)
}
