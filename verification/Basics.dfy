/** Machine integers and options, as all parts of the model use them. */
module Basics {
  type byte = b: int | 0 <= b < 0x100
  type u32 = v: int | 0 <= v < 0x1_0000_0000
  type u64 = v: int | 0 <= v < 0x1_0000_0000_0000_0000

  const EAGAIN: int := -11
  const EEXIST: int := -17
  const ENOSPC: int := -28
  const ENODATA: int := -61
  const EOVERFLOW: int := -75

  datatype Option<T> = None | Some(value: T)

  /** Anything cut down to 64 bits. */
  function Wrap(x: int): u64 { x % 0x1_0000_0000_0000_0000 }

  function Min(a: int, b: int): int { if a < b then a else b }

  function Max(a: int, b: int): int { if a < b then b else a }
}
