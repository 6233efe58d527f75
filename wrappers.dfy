/** The missing-value sentinel: `None` stands for a value `pd.isna` reports as missing. */
module Wrappers {
  datatype Option<+T> = None | Some(value: T)
}
