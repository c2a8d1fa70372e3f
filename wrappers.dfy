/** The optional value used for the one-shot slots and the optional cause of an error. */
module Wrappers {

  datatype Option<+T> = None | Some(value: T)
}
