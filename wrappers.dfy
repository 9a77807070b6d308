/** The optional value used wherever the source has `undefined`, `NaN` or "no match". */
module Wrappers {
  datatype Option<+T> = None | Some(value: T)
}
