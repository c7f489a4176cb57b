/** Small value wrappers shared by the modules of this model. */
module Wrappers {
  /** A value that may be absent, as a DOM lookup or attribute read may be. */
  datatype Option<+T> = None | Some(value: T)
}
