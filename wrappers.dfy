/** The optional value the model uses wherever the Ruby code may produce `nil`. */
module Wrappers {

  datatype Option<+T> = None | Some(value: T)
}
