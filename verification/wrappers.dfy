/** A minimal Option type, used wherever the source returns a value or nothing. */
module Wrappers {

  datatype Option<+T> = None | Some(value: T)
}
