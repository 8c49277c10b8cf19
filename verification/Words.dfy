/** Bytes and 32-bit words as the C code uses them. */
module Words {
  type byte = x: int | 0 <= x < 0x100
  type word = bv32

  /** A word that counts: unsigned, with wrap-around written out. */
  type counter = x: int | 0 <= x < 0x1_0000_0000

  const WORD_LIMIT := 0x1_0000_0000
  const COUNTER_LIMIT := 0x1_0000_0000_0000_0000

  function Zeros(n: nat): (r: seq<byte>)
    ensures |r| == n && forall i :: 0 <= i < n ==> r[i] == 0
  {
    seq(n, _ => 0)
  }
}
