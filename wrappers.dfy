/** Small result types shared by the modules of this model. */
module Wrappers {

  /** A value that may be absent (JavaScript `undefined` / `null`). */
  datatype Option<+T> = None | Some(value: T)

  /** The outcome of a JavaScript call that either returns a value or throws
      an exception carrying a message. */
  datatype Outcome<+T> = Ok(value: T) | Threw(message: string)
}
