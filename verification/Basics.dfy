/** What several modules share. */
module Basics {

  datatype Option<+T> = None | Some(value: T)

  type Byte = x: nat | x < 256

  function Min(a: int, b: int): int {
    if a <= b then a else b
  }

  function Max(a: int, b: int): int {
    if a >= b then a else b
  }

  lemma ByteThereAndBack(n: nat)
    requires n < 256
    ensures (n as bv8) as nat == n
  {
    // One bit length at a time.
    if n < 16 {
      if n < 8 {
      } else {
      }
    } else if n < 32 {
    } else if n < 64 {
    } else if n < 128 {
    } else {
    }
  }
}
