/** Machine bytes as numbers. */
module ByteValues {
  type byte = x: int | 0 <= x < 256
}
