/** The optional value used wherever the rangefinder may produce
    "no estimate" for a frame. */
module Wrappers {

  datatype Option<+T> = None | Some(value: T)
}
