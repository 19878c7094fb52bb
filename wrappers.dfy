/** The optional value used for "absent" inputs: a missing file, a missing line result. */
module Wrappers {

  datatype Option<+T> = None | Some(value: T)

}
