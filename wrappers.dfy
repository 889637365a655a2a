/** The optional value used wherever the pipeline can produce a missing value (NaN). */
module Wrappers {

  datatype Option<+T> = None | Some(value: T)
}
