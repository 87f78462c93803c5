/** An optional value: `None` is a JavaScript value that is absent. */
module Wrappers {

  datatype Option<+T> = None | Some(value: T)
}
