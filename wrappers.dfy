/** The optional value used for the firmware's "unset" and "not found" cases. */
module Wrappers {

  datatype Option<+T> = None | Some(value: T)
}
