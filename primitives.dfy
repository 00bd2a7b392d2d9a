/** C integer types of the provider's interface and two small arithmetic helpers. */
module Primitives {

  /** `char` bytes of the file contents buffer. */
  type uint8 = x: int | 0 <= x < 0x100

  /** `uint32_t`, the width of an open handle. */
  type uint32 = x: int | 0 <= x < 0x1_0000_0000

  /** `ino_t` and `size_t` on a 64-bit host. */
  type uint64 = x: int | 0 <= x < 0x1_0000_0000_0000_0000

  /** `int`, the type of open flags and signal numbers. */
  type int32 = x: int | -0x8000_0000 <= x < 0x8000_0000

  datatype Option<T> = None | Some(value: T)

  function Min(a: int, b: int): int { if a < b then a else b }

  function Max(a: int, b: int): int { if a < b then b else a }
}
