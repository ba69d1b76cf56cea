/** The optional value used wherever the source returns or stores a Java `null`. */
module Wrappers {

  datatype Option<+T> = None | Some(value: T)
}
