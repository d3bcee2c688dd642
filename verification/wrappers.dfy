/** The Option type used for "a file or directory that may be absent" and for
    "bounds that have not seen a value yet". */
module Wrappers {
  datatype Option<+T> = None | Some(value: T)
}
