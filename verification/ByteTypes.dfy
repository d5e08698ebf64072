/** Bytes and 32-bit integers as the C programs handle them. */
module ByteTypes {
  newtype byte = x: int | 0 <= x < 256

  type Chunk = seq<byte>

  const INT_MIN := -0x8000_0000
  const INT_MAX := 0x7FFF_FFFF

  predicate Fits(x: int) { INT_MIN <= x <= INT_MAX }

  type int32 = x: int | Fits(x)
}
