/** The optional value used wherever the source returns null or skips an entry. */
module Wrappers {

  datatype Option<+T> = None | Some(value: T)

}
