/** Words and types that every part of the model uses. */
module Basics {
  const WORD := 0x1_0000_0000    // the source's unsigned integers are words of 32 bits

  type Byte = b: nat | b < 256

  datatype Option<+T> = None | Some(value: T)

  function Max(a: int, b: int): int {
    if a < b then b else a
  }

  function Least(a: nat, b: nat): nat {
    if a < b then a else b
  }
}
