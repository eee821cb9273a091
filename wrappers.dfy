/** The optional value used for the columns pandas leaves undefined (NaN). */
module Wrappers {

  datatype Option<+T> = None | Some(value: T)

}
