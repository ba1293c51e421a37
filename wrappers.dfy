/** The optional value used for decode outcomes and for operations that can raise. */
module Wrappers {

  datatype Option<+T> = None | Some(value: T)
}
