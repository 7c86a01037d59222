/** Bytes of memory, and the line end of the text protocol. */
module ByteStrings {
  type Byte = x: int | 0 <= x < 256

  const CRLF: seq<Byte> := [13, 10]
}
