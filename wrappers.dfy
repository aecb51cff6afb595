/** An optional value: JavaScript's `undefined`, or a missing result, is `None`. */
module Wrappers {

  datatype Option<+T> = None | Some(value: T)
}
