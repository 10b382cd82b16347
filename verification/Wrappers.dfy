/** The datatype that stands for the source's nil values and error returns. */
module Wrappers {

  datatype Option<+T> = None | Some(value: T)
}
