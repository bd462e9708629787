/** The optional value used for absent JSON keys, absent headers and failed parses. */
module Wrappers {

  datatype Option<+T> = None | Some(value: T)

}
