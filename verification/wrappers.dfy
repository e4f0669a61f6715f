/** An optional value. */
module Wrappers {

  /** Either a value or nothing. An empty form field is `None`. */
  datatype Option<+T> = None | Some(value: T)
}
