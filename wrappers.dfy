/** The optional value used for results the source represents with null or an exception. */
module Wrappers {

  datatype Option<+T> = None | Some(value: T)
}
