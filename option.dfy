/** The optional value used for "not reported yet" and for parses that fail. */
module Opt {
  datatype Option<+T> = None | Some(value: T)
}
