/** Small things every component uses. */
module Basics {
  datatype Option<T> = None | Some(value: T)

  /** 2^32 and 2^64, where fixed-width words wrap. */
  const WORD32: nat := 0x1_0000_0000
  const WORD64: nat := 0x1_0000_0000_0000_0000

  function Min(a: nat, b: nat): nat {
    if a < b then a else b
  }

  function Max(a: nat, b: nat): nat {
    if a > b then a else b
  }
}
