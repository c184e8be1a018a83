/** Small value types shared by every module of the model. */
module Base {
  /** An optional value; Ruby's `nil` is `None`. */
  datatype Option<T> = None | Some(value: T)

  /** One byte of file content, as read from an archive entry or a file. */
  newtype byte = b: int | 0 <= b < 256
}
