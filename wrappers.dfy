/** The optional value used for every field that may be missing. */
module Wrappers {

  datatype Option<+T> = None | Some(value: T)

}
