/** The optional value used throughout the model: a Java reference that may
    be null, or a probe answer that may be missing because the query threw. */
module Wrappers {

  datatype Option<+T> = None | Some(value: T)
}
