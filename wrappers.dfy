/** The optional value used throughout the model; `None` also stands for the
    panic of an `unwrap()` on a missing value or a failed conversion. */
module Wrappers {

  datatype Option<+T> = None | Some(value: T)
}
