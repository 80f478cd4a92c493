/** Outcome types shared by the model. */
module Wrappers {

  /** Rust's `Option`: a value that may be absent. */
  datatype Option<+T> = None | Some(value: T)

  /** The outcome of running a piece of the program: it either returns a
      value, or it panics (an `unwrap` on `None` or on `Err`, which aborts
      the whole process). */
  datatype Run<+T> = Returns(value: T) | Panics
}
