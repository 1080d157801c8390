/** The optional-value wrapper used for the tolerant and the strict deserialisers. */
module Wrappers {

  datatype Option<+T> = None | Some(value: T)
}
