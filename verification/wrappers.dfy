/** The optional-value type used throughout the model. */
module Wrappers {

  /** `None` is an absent value; in the ledger it stands for a pandas NaN cell. */
  datatype Option<+T> = None | Some(value: T)
}
