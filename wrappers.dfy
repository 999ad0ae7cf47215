/** The optional value used for "no result" and for the error paths of the
    source, where Python returns `None` or raises. */
module Wrappers {

  datatype Option<+T> = None | Some(value: T)

}
