/** The optional-value datatype used for the tracker's "current session" slot
    and for the warning an action may raise. */
module Wrappers {

  datatype Option<+T> = None | Some(value: T)
}
