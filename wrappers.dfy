/** A value that may be absent: a missing spreadsheet cell, a failed parse, a lookup miss. */
module Wrappers {
  datatype Option<+T> = None | Some(value: T)
}
