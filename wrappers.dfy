/** The usual Some/None datatype, standing for a Go value that may be nil
    or for the outcome of a call that may fail. */
module Wrappers {

  datatype Option<+T> = None | Some(value: T)

}
