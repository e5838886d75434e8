/** A value that may be absent: the model of a JavaScript `T | null`. */
module Wrappers {

  datatype Option<+T> = None | Some(value: T)
}
