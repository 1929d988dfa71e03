/** Shared helper datatype: a Java reference that may be null, or a call that may fail. */
module Wrappers {

  datatype Option<+T> = None | Some(value: T)
}
