/** Optional values: what a Python `None`-or-value result becomes in the model. */
module Wrappers {

  datatype Option<+T> = None | Some(value: T)

}
