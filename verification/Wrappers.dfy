/** Small value types shared by the modules of the project. */
module Wrappers {
  datatype Option<+T> = None | Some(value: T)

  /** One wire level or one register bit. */
  type Bit = b: int | 0 <= b <= 1

  type Byte = b: int | 0 <= b < 256

  /** A 7-bit bus address. */
  type Address = a: int | 0 <= a < 128

  function Min(a: int, b: int): int {
    if a <= b then a else b
  }
}
