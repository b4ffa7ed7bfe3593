/** The option type used across the model. */
module Wrappers {

  /** `None` stands in for a null pointer or an absent value. */
  datatype Option<+T> = None | Some(value: T)
}
