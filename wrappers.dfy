/** The optional value used wherever the poller returns `None` or a value. */
module Wrappers {
  datatype Option<+T> = None | Some(value: T)
}
