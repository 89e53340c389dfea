/** A value that may be absent: a Java field left unset, a `null` capture group, a failed parse. */
module Wrappers {

  datatype Option<+T> = None | Some(value: T)
}
