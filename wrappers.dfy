/** A value that may be missing: a NaN cell of the catalog, a constraint the
    message does not name, a price pattern that does not occur. */
module Wrappers {

  datatype Option<+T> = None | Some(value: T)

}
