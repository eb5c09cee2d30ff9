/** The optional value used wherever the source either produces a value or
    raises (and the caller catches or propagates the exception). */
module Wrappers {

  datatype Option<+T> = None | Some(value: T)
}
