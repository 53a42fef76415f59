/** The optional value the monitor keeps where the source keeps `None` or a value. */
module Wrappers {
  datatype Option<+T> = None | Some(value: T)
}
