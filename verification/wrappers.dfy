/** The optional result that both revisions of `get` return. */
module Wrappers {

  datatype Option<+T> = None | Some(value: T)

}
