/** Failure-compatible wrappers shared by every module of the model. */
module Wrappers {

  datatype Option<+T> = None | Some(value: T)

  /** The outcome of a JavaScript call that may throw: the thrown error is
      represented by its `message`. */
  datatype Result<+T> = Ok(value: T) | Err(message: string)
}

/** Octets, as held by a Node.js `Buffer`. */
module Bytes {

  type Byte = b: int | 0 <= b < 256
}
