// Option: the source's null pointers, "OrZero" results and error returns.
module Wrappers {
  datatype Option<+T> = None | Some(value: T)
}
