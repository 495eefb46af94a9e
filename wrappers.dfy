/** The result of an operation of the engine that can throw. */
module Wrappers {

  /** `None` stands for an operation that threw instead of producing a value. */
  datatype Option<T> = None | Some(value: T)
}
