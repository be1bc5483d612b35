module Wrappers {
  /** A value JavaScript may leave `null` or `undefined`. */
  datatype Option<+T> = None | Some(value: T)
}
