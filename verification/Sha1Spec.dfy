/** SHA-1 as FIPS 180-4 defines it, with the 80-word schedule of section 6.1.2. */
module Sha1Spec {
  import opened Bytes
  import opened HashStream
  import opened WordOps

  datatype Regs = Regs(a: bv32, b: bv32, c: bv32, d: bv32, e: bv32)

  // The logical functions (section 4.1.1).
  function Ch(x: bv32, y: bv32, z: bv32): bv32 { (x & y) ^ (!x & z) }

  function Parity(x: bv32, y: bv32, z: bv32): bv32 { x ^ y ^ z }

  function Maj(x: bv32, y: bv32, z: bv32): bv32 { (x & y) ^ (x & z) ^ (y & z) }

  function Mix(t: nat, x: bv32, y: bv32, z: bv32): bv32 {
    if t < 20 then Ch(x, y, z) else if t < 40 then Parity(x, y, z)
    else if t < 60 then Maj(x, y, z) else Parity(x, y, z)
  }

  function Constant(t: nat): u32 {
    if t < 20 then 0x5a827999 else if t < 40 then 0x6ed9eba1 else if t < 60 then 0x8f1bbcdc else 0xca62c1d6
  }

  /** The constants of the four rounds are the integer parts of 2^30 times the roots of 2, 3, 5 and 10. */
  lemma ConstantsAreRoots(t: nat)
    requires t < 80
    ensures var k, n := Constant(t), if t < 20 then 2 else if t < 40 then 3 else if t < 60 then 5 else 10;
            k * k <= n * 0x1000_0000_0000_0000 < (k + 1) * (k + 1)
  {
  }

  function MessageWord(b: Block, i: nat): bv32
    requires i < 16
  {
    LeWord(b[4 * i + 3], b[4 * i + 2], b[4 * i + 1], b[4 * i])
  }

  function Schedule(b: Block, t: nat): bv32 {
    if t < 16 then MessageWord(b, t)
    else Rotl(Schedule(b, t - 3) ^ Schedule(b, t - 8) ^ Schedule(b, t - 14) ^ Schedule(b, t - 16), 1)
  }

  function Sum(a: bv32, f: bv32, e: bv32, k: u32, w: bv32): bv32 {
    Rotl(a, 5) + f + e + (k as bv32) + w
  }

  function Step(t: nat, w: bv32, r: Regs): Regs {
    Regs(Sum(r.a, Mix(t, r.b, r.c, r.d), r.e, Constant(t), w), r.a, Rotl(r.b, 30), r.c, r.d)
  }

  function Steps(n: nat, b: Block, r: Regs): Regs {
    if n == 0 then r else Step(n - 1, Schedule(b, n - 1), Steps(n - 1, b, r))
  }

  function AddRegs(r: Regs, s: Regs): Regs {
    Regs(r.a + s.a, r.b + s.b, r.c + s.c, r.d + s.d, r.e + s.e)
  }

  function Compress(r: Regs, b: Block): Regs {
    AddRegs(r, Steps(80, b, r))
  }

  const INITIAL := Regs(0x67452301, 0xefcdab89, 0x98badcfe, 0x10325476, 0xc3d2e1f0)

  function BeOctets(w: bv32): (s: seq<u8>)
    ensures |s| == 4
  {
    [WordOctet(w, 3), WordOctet(w, 2), WordOctet(w, 1), WordOctet(w, 0)]
  }

  function Output(r: Regs): (s: seq<u8>)
    ensures |s| == 20
  {
    BeOctets(r.a) + BeOctets(r.b) + BeOctets(r.c) + BeOctets(r.d) + BeOctets(r.e)
  }

  /** The length as one 64-bit big-endian number (section 5.1.1). */
  function LengthField(n: nat): (s: seq<u8>)
    ensures |s| == 8
  {
    Be32(BitLength(n) / 0x1_0000_0000) + Be32(BitLength(n) % 0x1_0000_0000)
  }

  /** The digest of m. */
  ghost function Sha1(m: seq<u8>): (s: seq<u8>)
    ensures |s| == 20
  {
    Output(Fold(Compress, INITIAL, Pad(m, LengthField(|m|))))
  }

  /** A streaming context that has swallowed exactly m. */
  ghost predicate Represents(state: Regs, lo: u32, hi: u32, buffer: seq<u8>, m: seq<u8>) {
    && |buffer| == 64
    && state == Fold(Compress, INITIAL, m)
    && lo + 0x1_0000_0000 * hi == BitLength(|m|)
    && buffer[..|m| % 64] == Tail(m)
  }

  lemma Open(state: Regs, lo: u32, hi: u32, buffer: seq<u8>, m: seq<u8>)
    requires Represents(state, lo, hi, buffer, m)
    ensures |buffer| == 64 && state == Fold(Compress, INITIAL, m)
    ensures lo + 0x1_0000_0000 * hi == BitLength(|m|) && lo / 8 % 64 == |m| % 64
    ensures buffer[..|m| % 64] == Tail(m)
  {
    CounterIndex(|m|, lo, hi);
  }

  lemma Close(state: Regs, lo: u32, hi: u32, buffer: seq<u8>, m: seq<u8>)
    requires |buffer| == 64 && state == Fold(Compress, INITIAL, m)
    requires lo + 0x1_0000_0000 * hi == BitLength(|m|)
    requires buffer[..|m| % 64] == Tail(m)
    ensures Represents(state, lo, hi, buffer, m)
  {
  }

  lemma DigestOf(m: seq<u8>)
    ensures Sha1(m) == Output(Fold(Compress, INITIAL, Pad(m, LengthField(|m|))))
  {
  }

  lemma CountOctets(lo: u32, hi: u32, n: nat)
    requires lo + 0x1_0000_0000 * hi == BitLength(n)
    ensures LengthField(n) == Be32(hi) + Be32(lo)
  {
    hide BitLength, Octet;
    Halves(BitLength(n), lo, hi);
  }

  lemma Advance(i: nat, b: Block, r0: Regs, v: bv32, w: bv32, x: bv32, y: bv32, z: bv32)
    requires Steps(i, b, r0) == Regs(v, w, x, y, z)
    ensures Steps(i + 1, b, r0)
         == Regs(Sum(v, Mix(i, w, x, y), z, Constant(i), Schedule(b, i)), v, Rotl(w, 30), x, y)
  {
    hide Sum, Mix, Constant, Schedule, Rotl;
  }

  lemma ScheduleNext(b: Block, t: nat)
    requires 16 <= t
    ensures Schedule(b, t)
         == Rotl(Schedule(b, t - 3) ^ Schedule(b, t - 8) ^ Schedule(b, t - 14) ^ Schedule(b, t - 16), 1)
  {
    hide Rotl;
  }

  lemma StepsZero(b: Block, r: Regs)
    ensures Steps(0, b, r) == r
  {
  }
}
