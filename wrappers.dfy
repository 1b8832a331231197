/** The Option datatype used for the "return None on failure" results of the pipeline. */
module Wrappers {
  datatype Option<+T> = None | Some(value: T)
}
