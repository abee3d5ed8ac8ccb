/** The optional-value type used where the C# code uses null. */
module Wrappers {
  datatype Option<+T> = None | Some(value: T)
}
