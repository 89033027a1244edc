/** The optional value used for the held disk and the cursor (Python's `None`). */
module Wrappers {

  datatype Option<+T> = None | Some(value: T)
}
