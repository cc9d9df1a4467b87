/** Vocabulary shared by every component: optional values and byte strings. */
module Common {

  datatype Option<+T> = None | Some(value: T)

  newtype byte = b: int | 0 <= b < 256

  // Keys and values are byte strings; a key is the UTF-8 encoding of its name.
  type Bytes = seq<byte>
}
