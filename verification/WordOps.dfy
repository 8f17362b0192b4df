/** 32-bit machine words: rotation, and loading and storing their octets. */
module WordOps {
  import opened Bytes

  function Rotl(x: bv32, n: nat): bv32
    requires n <= 32
  {
    (x << n) | (x >> (32 - n))
  }

  function Join(x0: bv8, x1: bv8, x2: bv8, x3: bv8): bv32 {
    (x0 as bv32) | ((x1 as bv32) << 8) | ((x2 as bv32) << 16) | ((x3 as bv32) << 24)
  }

  /** The word whose octets, least significant first, are b0 b1 b2 b3. */
  function LeWord(b0: u8, b1: u8, b2: u8, b3: u8): bv32 {
    Join(b0 as bv8, b1 as bv8, b2 as bv8, b3 as bv8)
  }

  /** A word load of four consecutive octets on a host of the given byte order. */
  function NativeLoad(big: bool, b0: u8, b1: u8, b2: u8, b3: u8): bv32 {
    if big then LeWord(b3, b2, b1, b0) else LeWord(b0, b1, b2, b3)
  }

  function WordOctet(w: bv32, k: nat): u8
    requires k < 4
  {
    ((w >> (8 * k)) & 0xff) as bv8 as u8
  }

  lemma Halves(x: int, lo: u32, hi: u32)
    requires x == lo + 0x1_0000_0000 * hi
    ensures x % 0x1_0000_0000 == lo && x / 0x1_0000_0000 == hi
  {
  }
}
