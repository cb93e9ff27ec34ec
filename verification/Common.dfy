/** Vocabulary shared by all modules. */
module Common {
  datatype Option<+T> = None | Some(value: T)

  newtype byte = b: int | 0 <= b < 256

  type Bytes = seq<byte>

  /** SHA-256 printed in hexadecimal. Every theorem holds for any such function. */
  type Digest = Bytes -> string
}
