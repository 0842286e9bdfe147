/** An optional value: a document field that may be absent, a query parameter
    that may be missing. */
module Wrappers {

  datatype Option<+T> = None | Some(value: T)
}
