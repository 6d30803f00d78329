/** Optional values, in place of Go's (value, error) and (value, ok) pairs, byte strings, and 64-bit bounds. */
module Wrappers {
  const MAX_INT64: int := 0x7fff_ffff_ffff_ffff

  type Int64 = n: int | -0x8000_0000_0000_0000 <= n <= 0x7fff_ffff_ffff_ffff

  /** How many values a 64-bit word has. */
  const WORD: int := 0x1_0000_0000_0000_0000

  type Byte = b: int | 0 <= b < 256
  type Bytes = seq<Byte>

  datatype Option<+T> = None | Some(value: T)
}
