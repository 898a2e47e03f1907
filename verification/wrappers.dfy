/** The optional value used wherever a Python dictionary key may be missing
    or a call may come back with `None`. */
module Wrappers {

  datatype Option<+T> = None | Some(value: T)
}
