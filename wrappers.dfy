/** A value that may be absent: a JavaScript `null` column. */
module Wrappers {

  datatype Option<+T> = None | Some(value: T)
}
