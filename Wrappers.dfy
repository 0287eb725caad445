/** Failure-compatible optional value, used for the source's raised exceptions. */
module Wrappers {

  datatype Option<+T> = None | Some(value: T)

}
