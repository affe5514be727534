/** The optional value used for partial functions such as decoding. */
module Wrappers {

  datatype Option<+T> = None | Some(value: T)
}
