/** The optional value that stands for Python's `None` beside a present value. */
module Wrappers {

  datatype Option<+T> = None | Some(value: T)

  /** A value together with whether a `[WARN]` line was written to standard error
      while choosing it. */
  datatype Choice<+T> = Choice(value: T, warned: bool)
}
