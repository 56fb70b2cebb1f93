/** The optional value the script passes around as "a value or None". */
module Wrappers {

  datatype Option<+T> = None | Some(value: T)
}
