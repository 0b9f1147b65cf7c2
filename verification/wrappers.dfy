/** The Some/None datatype, used where the frame holds a reference that may be null. */
module Wrappers {

  datatype Option<+T> = None | Some(value: T)
}
