/** Machine words of the original, with its wrap-around written out. */
module Words {
  const UINT_MAX: int := 0xffff_ffff

  type u8 = x: int | 0 <= x <= 0xff
  type u16 = x: int | 0 <= x <= 0xffff
  type u32 = x: int | 0 <= x <= 0xffff_ffff

  /** Channel hashes are opaque keys. */
  type Hash = string

  /** Peer uuids are opaque keys with an order. */
  type Uuid = nat

  datatype Option<+T> = None | Some(value: T)

  /** Unsigned 32-bit addition. */
  function Add32(a: u32, b: u32): u32 {
    if a + b <= UINT_MAX then a + b else a + b - UINT_MAX - 1
  }

  /** Unsigned 32-bit subtraction. */
  function Sub32(a: u32, b: u32): u32 {
    if b <= a then a - b else a - b + UINT_MAX + 1
  }

  /** An unsigned 32-bit value passed where a signed one is expected. */
  function AsInt32(a: u32): int {
    if a <= 0x7fff_ffff then a else a - UINT_MAX - 1
  }

  function Min(a: int, b: int): int {
    if a <= b then a else b
  }

  function Max(a: int, b: int): int {
    if a <= b then b else a
  }

  /** The sum and the difference are those modulo 2^32; a signed word keeps its value modulo 2^32. */
  lemma WordsWrap(a: u32, b: u32)
    ensures Add32(a, b) == (a + b) % 0x1_0000_0000 && Sub32(a, b) == (a - b) % 0x1_0000_0000
    ensures -0x8000_0000 <= AsInt32(a) < 0x8000_0000 && AsInt32(a) % 0x1_0000_0000 == a
  {
  }
}
