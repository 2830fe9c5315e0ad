/** Machine integers, byte buffers and the small helpers that every part of the kernel shares. */
module Types {

  type u32 = x: int | 0 <= x < 0x1_0000_0000

  const INT_MAX := 0x7FFF_FFFF

  type byte = x: int | 0 <= x < 256

  datatype Option<T> = None | Some(value: T)

  /** Unsigned 32-bit arithmetic. */
  function Wrap(x: int): u32 {
    x % 0x1_0000_0000
  }

  function Min(a: int, b: int): int {
    if a < b then a else b
  }

  function Max(a: int, b: int): int {
    if a < b then b else a
  }
}
