/** An optional value: a reference that may be `null`, or a result that may be absent. */
module Wrappers {

  datatype Option<+T> = None | Some(value: T)
}
