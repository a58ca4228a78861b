/** A value that may be absent: a nullable Java reference or an `Optional`. */
module Wrappers {

  datatype Option<+T> = None | Some(value: T)
}
