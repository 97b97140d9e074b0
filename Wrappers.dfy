/** The optional value used for every operation of the trimmer that can fail quietly. */
module Wrappers {

  datatype Option<+T> = None | Some(value: T)
}
