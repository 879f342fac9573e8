/** The optional value used for "absent" results: `find` returning undefined,
    a null date, a missing storage entry. */
module Wrappers {
  datatype Option<+T> = None | Some(value: T)
}
