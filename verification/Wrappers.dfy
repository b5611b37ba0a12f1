/** An optional value, used for the `city` query parameter that a request may omit. */
module Wrappers {

  datatype Option<+T> = None | Some(value: T)
}
