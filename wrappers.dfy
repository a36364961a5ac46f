/** The optional value used wherever the game returns `None` or a loader raises. */
module Wrappers {

  datatype Option<+T> = None | Some(value: T)
}
