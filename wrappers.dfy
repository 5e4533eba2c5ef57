/** Option stands for a Java reference that may be null (or a field that was never set). */
module Wrappers {

  datatype Option<+T> = None | Some(value: T)
}
