/** The optional-value datatype used for the throttle's "unset" start time
    and its "no timer" slot. */
module Wrappers {

  /** `None` stands for a JavaScript `null` or falsy sentinel. */
  datatype Option<+T> = None | Some(value: T)
}
