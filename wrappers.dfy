/** The optional value used for fallible decoding steps. */
module Wrappers {

  datatype Option<+T> = None | Some(value: T)
}
