/** Bytes, as strings and bytecode consist of them. */
module ByteType {
  type Byte = b: int | 0 <= b < 256
}
