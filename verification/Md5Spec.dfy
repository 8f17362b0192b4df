/** MD5 as RFC 1321 defines it: the reference both implementations are proved against. */
module Md5Spec {
  import opened Bytes
  import opened HashStream
  import opened WordOps

  datatype Regs = Regs(a: bv32, b: bv32, c: bv32, d: bv32)

  // The four auxiliary functions (section 3.4).
  function F(x: bv32, y: bv32, z: bv32): bv32 { (x & y) | (!x & z) }

  function G(x: bv32, y: bv32, z: bv32): bv32 { (x & z) | (y & !z) }

  function H(x: bv32, y: bv32, z: bv32): bv32 { x ^ y ^ z }

  function I(x: bv32, y: bv32, z: bv32): bv32 { y ^ (x | !z) }

  function Mix(i: nat, x: bv32, y: bv32, z: bv32): bv32 {
    if i < 16 then F(x, y, z) else if i < 32 then G(x, y, z) else if i < 48 then H(x, y, z) else I(x, y, z)
  }

  /** Which message word operation i uses. */
  function WordIndex(i: nat): (k: nat)
    ensures k < 16
  {
    if i < 16 then i else if i < 32 then (5 * i + 1) % 16 else if i < 48 then (3 * i + 5) % 16 else 7 * i % 16
  }

  function Shift(i: nat): (s: nat)
    ensures s < 32
  {
    var j := i % 4;
    if i < 16 then (if j == 0 then 7 else if j == 1 then 12 else if j == 2 then 17 else 22)
    else if i < 32 then (if j == 0 then 5 else if j == 1 then 9 else if j == 2 then 14 else 20)
    else if i < 48 then (if j == 0 then 4 else if j == 1 then 11 else if j == 2 then 16 else 23)
    else (if j == 0 then 6 else if j == 1 then 10 else if j == 2 then 15 else 21)
  }

  function Pick(j: int, t0: u32, t1: u32, t2: u32, t3: u32): u32 {
    if j == 0 then t0 else if j == 1 then t1 else if j == 2 then t2 else t3
  }

  /** The sine table, element i + 1 of the RFC's T. */
  function Sine(i: nat): u32 {
    if i < 16 then Sine1(i) else if i < 32 then Sine2(i) else if i < 48 then Sine3(i) else Sine4(i)
  }

  function Sine1(i: nat): u32 {
    if i < 4 then Pick(i - 0, 0xd76aa478, 0xe8c7b756, 0x242070db, 0xc1bdceee)
    else if i < 8 then Pick(i - 4, 0xf57c0faf, 0x4787c62a, 0xa8304613, 0xfd469501)
    else if i < 12 then Pick(i - 8, 0x698098d8, 0x8b44f7af, 0xffff5bb1, 0x895cd7be)
    else Pick(i - 12, 0x6b901122, 0xfd987193, 0xa679438e, 0x49b40821)
  }

  function Sine2(i: nat): u32 {
    if i < 20 then Pick(i - 16, 0xf61e2562, 0xc040b340, 0x265e5a51, 0xe9b6c7aa)
    else if i < 24 then Pick(i - 20, 0xd62f105d, 0x02441453, 0xd8a1e681, 0xe7d3fbc8)
    else if i < 28 then Pick(i - 24, 0x21e1cde6, 0xc33707d6, 0xf4d50d87, 0x455a14ed)
    else Pick(i - 28, 0xa9e3e905, 0xfcefa3f8, 0x676f02d9, 0x8d2a4c8a)
  }

  function Sine3(i: nat): u32 {
    if i < 36 then Pick(i - 32, 0xfffa3942, 0x8771f681, 0x6d9d6122, 0xfde5380c)
    else if i < 40 then Pick(i - 36, 0xa4beea44, 0x4bdecfa9, 0xf6bb4b60, 0xbebfbc70)
    else if i < 44 then Pick(i - 40, 0x289b7ec6, 0xeaa127fa, 0xd4ef3085, 0x04881d05)
    else Pick(i - 44, 0xd9d4d039, 0xe6db99e5, 0x1fa27cf8, 0xc4ac5665)
  }

  function Sine4(i: nat): u32 {
    if i < 52 then Pick(i - 48, 0xf4292244, 0x432aff97, 0xab9423a7, 0xfc93a039)
    else if i < 56 then Pick(i - 52, 0x655b59c3, 0x8f0ccc92, 0xffeff47d, 0x85845dd1)
    else if i < 60 then Pick(i - 56, 0x6fa87e4f, 0xfe2ce6e0, 0xa3014314, 0x4e0811a1)
    else Pick(i - 60, 0xf7537e82, 0xbd3af235, 0x2ad7d2bb, 0xeb86d391)
  }

  function Operation(w: bv32, f: bv32, x: bv32, t: bv32, s: nat, b: bv32): bv32
    requires s <= 32
  {
    b + Rotl(w + f + x + t, s)
  }

  /** One of the 64 operations, with the registers renamed after it. */
  function Step(i: nat, x: seq<bv32>, r: Regs): Regs
    requires i < 64 && |x| == 16
  {
    Regs(r.d, Operation(r.a, Mix(i, r.b, r.c, r.d), x[WordIndex(i)], Sine(i) as bv32, Shift(i), r.b), r.b, r.c)
  }

  function Steps(n: nat, x: seq<bv32>, r: Regs): Regs
    requires n <= 64 && |x| == 16
  {
    if n == 0 then r else Step(n - 1, x, Steps(n - 1, x, r))
  }

  function WordAt(b: Block, i: nat): bv32
    requires i < 16
  {
    LeWord(b[4 * i], b[4 * i + 1], b[4 * i + 2], b[4 * i + 3])
  }

  function Words(b: Block): (x: seq<bv32>)
    ensures |x| == 16
  {
    seq(16, i requires 0 <= i < 16 => WordAt(b, i))
  }

  function AddRegs(r: Regs, s: Regs): Regs {
    Regs(r.a + s.a, r.b + s.b, r.c + s.c, r.d + s.d)
  }

  function Compress(r: Regs, b: Block): Regs {
    AddRegs(r, Steps(64, Words(b), r))
  }

  const INITIAL := Regs(0x67452301, 0xefcdab89, 0x98badcfe, 0x10325476)

  function LeOctets(w: bv32): (s: seq<u8>)
    ensures |s| == 4
  {
    [WordOctet(w, 0), WordOctet(w, 1), WordOctet(w, 2), WordOctet(w, 3)]
  }

  function Output(r: Regs): (s: seq<u8>)
    ensures |s| == 16
  {
    LeOctets(r.a) + LeOctets(r.b) + LeOctets(r.c) + LeOctets(r.d)
  }

  /** The low-order word of the length first, each word low-order octet first. */
  function LengthField(n: nat): (s: seq<u8>)
    ensures |s| == 8
  {
    Le32(BitLength(n) % 0x1_0000_0000) + Le32(BitLength(n) / 0x1_0000_0000)
  }

  /** The digest of m (sections 3.1 to 3.5). */
  ghost function Md5(m: seq<u8>): (s: seq<u8>)
    ensures |s| == 16
  {
    Output(Fold(Compress, INITIAL, Pad(m, LengthField(|m|))))
  }

  /** A streaming context that has swallowed exactly m. */
  ghost predicate Represents(state: Regs, lo: u32, hi: u32, buffer: seq<u8>, m: seq<u8>) {
    && |buffer| == 64
    && state == Fold(Compress, INITIAL, m)
    && lo + 0x1_0000_0000 * hi == BitLength(|m|)
    && buffer[..|m| % 64] == Tail(m)
  }

  lemma Open(state: Regs, lo: u32, hi: u32, buffer: seq<u8>, m: seq<u8>)
    requires Represents(state, lo, hi, buffer, m)
    ensures |buffer| == 64 && state == Fold(Compress, INITIAL, m)
    ensures lo + 0x1_0000_0000 * hi == BitLength(|m|) && lo / 8 % 64 == |m| % 64
    ensures buffer[..|m| % 64] == Tail(m)
  {
    CounterIndex(|m|, lo, hi);
  }

  lemma Close(state: Regs, lo: u32, hi: u32, buffer: seq<u8>, m: seq<u8>)
    requires |buffer| == 64 && state == Fold(Compress, INITIAL, m)
    requires lo + 0x1_0000_0000 * hi == BitLength(|m|)
    requires buffer[..|m| % 64] == Tail(m)
    ensures Represents(state, lo, hi, buffer, m)
  {
  }

  lemma CountOctets(lo: u32, hi: u32, n: nat)
    requires lo + 0x1_0000_0000 * hi == BitLength(n)
    ensures LengthField(n) == Le32(lo) + Le32(hi)
  {
    hide BitLength, Octet;
    Halves(BitLength(n), lo, hi);
  }

  lemma DigestOf(m: seq<u8>)
    ensures Md5(m) == Output(Fold(Compress, INITIAL, Pad(m, LengthField(|m|))))
  {
  }

  /** Two lower-case hexadecimal digits an octet, high half first. */
  function Hex(s: seq<u8>): (h: seq<u8>)
    ensures |h| == 2 * |s|
  {
    if s == [] then [] else Hex(s[..|s| - 1]) + [HexDigit(s[|s| - 1] / 16), HexDigit(s[|s| - 1] % 16)]
  }

  /** High digit first, in the order of the octets. */
  lemma {:induction false} HexPairs(s: seq<u8>, i: nat)
    requires i < |s|
    ensures Hex(s)[2 * i] == "0123456789abcdef"[s[i] / 16] as int
    ensures Hex(s)[2 * i + 1] == "0123456789abcdef"[s[i] % 16] as int
  {
    if i < |s| - 1 {
      HexPairs(s[..|s| - 1], i);
    }
  }

  lemma HexNext(s: seq<u8>, i: nat)
    requires i < |s|
    ensures Hex(s[..i + 1]) == Hex(s[..i]) + [HexDigit(s[i] / 16), HexDigit(s[i] % 16)]
  {
    assert s[..i + 1][..i] == s[..i];
  }

  lemma StepsZero(x: seq<bv32>, r: Regs)
    requires |x| == 16
    ensures Steps(0, x, r) == r
  {
  }
}
