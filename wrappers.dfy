/** Small helper datatypes shared by the other modules. */
module Wrappers {

  /** A slot that may hold nothing: `None` stands for a null pointer. */
  datatype Option<T> = None | Some(value: T)
}
