/** Optional values and success/failure outcomes shared by the tokenizer and the parser. */
module Wrappers {

  datatype Option<+T> = None | Some(value: T)

  /** `Err` stands for an aborted run: a `panic!`, an `unwrap()` on `None`, or `process::exit(1)`. */
  datatype Result<+T, +E> = Ok(value: T) | Err(error: E)
}
