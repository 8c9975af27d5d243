/** The usual optional value, standing for a C# nullable reference. */
module Wrappers {

  datatype Option<+T> = None | Some(value: T)
}
