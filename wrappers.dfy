/** Option stands for the C code's nullable pointers: `None` is NULL. */
module Wrappers {

  datatype Option<+T> = None | Some(value: T)
}
