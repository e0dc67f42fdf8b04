/** The optional value used for a reading that may have failed (None) or succeeded (Some). */
module Wrappers {

  datatype Option<+T> = None | Some(value: T)
}
