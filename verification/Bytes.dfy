/** Bytes and sequences of them, as the stream models share them. */
module Bytes {

  type Byte = bv8
  type Bytes = seq<bv8>

  /** The range of a 32-bit number. */
  const U32 := 0x1_0000_0000

  function Least(a: nat, b: nat): nat {
    if a < b then a else b
  }

  lemma Associative<T>(a: seq<T>, b: seq<T>, c: seq<T>)
    ensures a + b + c == a + (b + c)
  {
  }
}
