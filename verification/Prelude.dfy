/** Types shared by the models. */
module Prelude {
  datatype Option<+T> = None | Some(value: T)

  datatype Result<+T> = Ok(value: T) | Err

  newtype Byte = b: int | 0 <= b < 256

  /** A Rust string, seen as its UTF-8 bytes. */
  type Text = seq<Byte>
}
