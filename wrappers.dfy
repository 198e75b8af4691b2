/** The optional-value type used for every operation of the model that can fail. */
module Wrappers {

  /** `None` stands for a Python exception (ValueError) raised by the modelled code. */
  datatype Option<+T> = None | Some(value: T)
}
