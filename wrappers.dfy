/** The optional value used wherever the source has `null`/`undefined` or a lookup that can miss. */
module Wrappers {

  datatype Option<+T> = None | Some(value: T)

}
