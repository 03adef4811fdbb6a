/** Optional values and the outcome of a computation that may raise a JavaScript exception. */
module Wrappers {

  datatype Option<+T> = None | Some(value: T)

  /** `Threw` stands for an exception (in this code base always a TypeError from reading a
      property of `undefined`) that escapes the operation and everything that called it. */
  datatype Result<+T> = Ok(value: T) | Threw
}
