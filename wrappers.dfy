/** The optional value used wherever the source yields `undefined`, `null` or a caught failure. */
module Wrappers {

  datatype Option<+T> = None | Some(value: T)
}
