/** The optional value used wherever the source returns `Option<T>` or a
    nullable result. */
module Wrappers {

  datatype Option<+T> = None | Some(value: T)
}
