/** The two failure-carrying wrappers the model uses in place of null and of thrown errors. */
module Wrappers {

  /** An optional value: `None` stands for Java's `null` where a field may be absent. */
  datatype Option<+T> = None | Some(value: T)

  /** Either a value or the error that was raised instead of producing it. */
  datatype Result<+T, +E> = Ok(value: T) | Err(error: E)
}
