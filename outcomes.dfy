/** Failure-carrying result types shared by the whole model. */
module Outcomes {

  /** A value that may be absent: JavaScript's `null` result of a parser or a lookup. */
  datatype Option<+T> = None | Some(value: T)

  /** The result of a JavaScript call that is not wrapped in try/catch: it either returns a
      value or throws, and a throw propagates to every caller. */
  datatype Outcome<+T> = Return(value: T) | Throw
}
