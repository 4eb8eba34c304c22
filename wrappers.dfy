/** The optional value used for computations that throw in the bank page's
    JavaScript (a `reduce` over an empty list) and for `undefined` fields. */
module Wrappers {
  datatype Option<+T> = None | Some(value: T)
}
