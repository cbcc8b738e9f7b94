/** Byte strings. */
module Octets {

  type Byte = b: int | 0 <= b < 256

  type Bytes = seq<Byte>

  /** The bytes of every chunk in turn. */
  function Flat(chunks: seq<Bytes>): Bytes {
    if |chunks| == 0 then [] else chunks[0] + Flat(chunks[1..])
  }
}
