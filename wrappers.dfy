/** The optional-value datatype used for the validators' "accept or reject" results. */
module Wrappers {

  /** `None` is Python's `None` (the validator accepts); `Some(v)` carries the rejection. */
  datatype Option<+T> = None | Some(value: T)
}
