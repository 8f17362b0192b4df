/**
 Iterated hashing over 64-octet blocks, for any compression function: the
 chaining value of a message, and the padding rule that MD5 (RFC 1321, sections
 3.1 and 3.2) and SHA-1 (FIPS 180-4, section 5.1.1) share up to byte order.
 */
module HashStream {
  import opened Bytes

  type Block = b: seq<u8> | |b| == 64 witness Zeros(64)

  /** Feeds every whole block of m to f, left to right; an incomplete tail is ignored. */
  ghost function Fold<S>(f: (S, Block) -> S, st: S, m: seq<u8>): S
    decreases |m|
  {
    if |m| < 64 then st else Fold(f, f(st, m[..64]), m[64..])
  }

  /** The octets of m that do not fill a block. */
  ghost function Tail(m: seq<u8>): (t: seq<u8>)
    ensures |t| == |m| % 64
  {
    m[|m| - |m| % 64..]
  }

  lemma {:induction false} FoldAppend<S>(f: (S, Block) -> S, st: S, m: seq<u8>, n: seq<u8>)
    requires |m| % 64 == 0
    ensures Fold(f, st, m + n) == Fold(f, Fold(f, st, m), n)
    decreases |m|
  {
    if m == [] {
      assert m + n == n;
    } else {
      assert (m + n)[..64] == m[..64];
      assert (m + n)[64..] == m[64..] + n;
      FoldAppend(f, f(st, m[..64]), m[64..], n);
    }
  }

  lemma FoldBlock<S>(f: (S, Block) -> S, st: S, m: seq<u8>, b: Block)
    requires |m| % 64 == 0
    ensures Fold(f, st, m + b) == f(Fold(f, st, m), b)
  {
    FoldAppend(f, st, m, b);
    assert b[..64] == b;
  }

  /** Octets that do not complete a block leave the chaining value alone. */
  lemma FoldShort<S>(f: (S, Block) -> S, st: S, m: seq<u8>, t: seq<u8>)
    requires |m| % 64 == 0 && |t| < 64
    ensures Fold(f, st, m + t) == Fold(f, st, m)
  {
    FoldAppend(f, st, m, t);
  }

  ghost function WholeBlocks(m: seq<u8>): (w: seq<u8>)
    ensures w + Tail(m) == m && |w| % 64 == 0
  {
    m[..|m| - |m| % 64]
  }

  lemma FoldWhole<S>(f: (S, Block) -> S, st: S, m: seq<u8>)
    ensures Fold(f, st, m) == Fold(f, st, WholeBlocks(m))
  {
    FoldShort(f, st, WholeBlocks(m), Tail(m));
  }

  /** Topping the tail up to a block and compressing it moves the chain past both. */
  lemma FillBlock<S>(f: (S, Block) -> S, st: S, m: seq<u8>, part: seq<u8>, block: Block)
    requires block == Tail(m) + part
    ensures f(Fold(f, st, m), block) == Fold(f, st, m + part)
  {
    hide *;
    FoldWhole(f, st, m);
    FoldBlock(f, st, WholeBlocks(m), block);
    assert WholeBlocks(m) + block == m + part;
  }

  lemma FoldNext<S>(f: (S, Block) -> S, st: S, m: seq<u8>, input: seq<u8>, i: nat)
    requires (|m| + i) % 64 == 0 && i + 64 <= |input|
    ensures f(Fold(f, st, m + input[..i]), input[i..i + 64]) == Fold(f, st, m + input[..i + 64])
  {
    hide *;
    FoldBlock(f, st, m + input[..i], input[i..i + 64]);
    assert (m + input[..i]) + input[i..i + 64] == m + input[..i + 64];
  }

  lemma SmallRemainder(n: nat, k: nat)
    requires n % 64 + k < 64
    ensures (n + k) % 64 == n % 64 + k
  {
  }

  /** Input that leaves the buffer short of a block is only kept. */
  lemma LeftoverShort<S>(f: (S, Block) -> S, st: S, m: seq<u8>, input: seq<u8>)
    requires |m| % 64 + |input| < 64
    ensures Fold(f, st, m + input) == Fold(f, st, m)
    ensures Tail(m + input) == Tail(m) + input
    ensures |m + input| % 64 == |m| % 64 + |input|
  {
    hide *;
    var w := WholeBlocks(m);
    FoldWhole(f, st, m);
    SmallRemainder(|m|, |input|);
    assert w + (Tail(m) + input) == m + input;
    FoldShort(f, st, w, Tail(m) + input);
    SplitTail(w, Tail(m) + input);
  }

  /** From block boundary i on, what is left is the new tail. */
  lemma LeftoverAt<S>(f: (S, Block) -> S, st: S, m: seq<u8>, input: seq<u8>, i: nat)
    requires i <= |input| && (|m| + i) % 64 == 0 && |input| - i < 64
    ensures Fold(f, st, m + input) == Fold(f, st, m + input[..i])
    ensures Tail(m + input) == input[i..]
    ensures |m + input| % 64 == |input| - i
  {
    hide *;
    SmallRemainder(|m| + i, |input| - i);
    assert (m + input[..i]) + input[i..] == m + input;
    FoldShort(f, st, m + input[..i], input[i..]);
    SplitTail(m + input[..i], input[i..]);
  }

  lemma SplitTail(w: seq<u8>, t: seq<u8>)
    requires |w| % 64 == 0 && |t| < 64
    ensures Tail(w + t) == t
  {
    SmallRemainder(|w|, |t|);
  }

  /** Zero octets between the mark and the 8-octet length. */
  function ZeroCount(n: nat): nat {
    (119 - n % 64) % 64
  }

  function BitLength(n: nat): (w: int)
    ensures 0 <= w < 0x1_0000_0000_0000_0000
  {
    8 * n % 0x1_0000_0000_0000_0000
  }

  /** One octet 0x80, the fewest zeros that reach 56 modulo 64, then the length field. */
  function Pad(m: seq<u8>, lengthField: seq<u8>): seq<u8> {
    m + [0x80] + Zeros(ZeroCount(|m|)) + lengthField
  }

  lemma PadFillsBlocks(m: seq<u8>, lengthField: seq<u8>)
    requires |lengthField| == 8
    ensures |Pad(m, lengthField)| % 64 == 0
    ensures 0 <= ZeroCount(|m|) < 64
  {
  }

  lemma ZeroCountIs(n: nat)
    ensures ZeroCount(n) == if n % 64 < 56 then 55 - n % 64 else 63 - n % 64 + 56
  {
  }

  lemma PadParts(m: seq<u8>, lengthField: seq<u8>)
    ensures Pad(m, lengthField) == WholeBlocks(m) + (Tail(m) + [0x80] + Zeros(ZeroCount(|m|)) + lengthField)
  {
    hide Tail, WholeBlocks, ZeroCount, Zeros;
    assert m == WholeBlocks(m) + Tail(m);
  }

  /** Swallowing whole blocks after what was swallowed already. */
  lemma FoldOnto<S>(f: (S, Block) -> S, st: S, m: seq<u8>, padded: seq<u8>, b: Block)
    requires padded == WholeBlocks(m) + b
    ensures Fold(f, st, padded) == f(Fold(f, st, m), b)
  {
    hide *;
    FoldWhole(f, st, m);
    FoldBlock(f, st, WholeBlocks(m), b);
  }

  lemma FoldOntoTwo<S>(f: (S, Block) -> S, st: S, m: seq<u8>, padded: seq<u8>, b1: Block, b2: Block)
    requires padded == WholeBlocks(m) + b1 + b2
    ensures Fold(f, st, padded) == f(f(Fold(f, st, m), b1), b2)
  {
    hide *;
    FoldOnto(f, st, m, WholeBlocks(m) + b1, b1);
    FoldBlock(f, st, WholeBlocks(m) + b1, b2);
  }

  /** A tail of at most 55 octets leaves room for the mark and the length in one block. */
  lemma PadOne(m: seq<u8>, lengthField: seq<u8>, last: Block)
    requires |m| % 64 < 56 && |lengthField| == 8
    requires last == Tail(m) + [0x80] + Zeros(55 - |m| % 64) + lengthField
    ensures Pad(m, lengthField) == WholeBlocks(m) + last
  {
    hide *;
    ZeroCountIs(|m|);
    PadParts(m, lengthField);
  }

  /** A longer tail spills the zeros and the length into a second block. */
  lemma PadTwo(m: seq<u8>, lengthField: seq<u8>, b1: Block, b2: Block)
    requires 56 <= |m| % 64 && |lengthField| == 8
    requires b1 == Tail(m) + [0x80] + Zeros(63 - |m| % 64)
    requires b2 == Zeros(56) + lengthField
    ensures Pad(m, lengthField) == WholeBlocks(m) + b1 + b2
  {
    hide *;
    ZeroCountIs(|m|);
    PadParts(m, lengthField);
    ZerosAppend(63 - |m| % 64, 56);
    assert Tail(m) + [0x80] + Zeros(ZeroCount(|m|)) + lengthField == b1 + b2;
    assert WholeBlocks(m) + (b1 + b2) == (WholeBlocks(m) + b1) + b2;
  }

  lemma ZerosAppend(a: nat, b: nat)
    ensures Zeros(a + b) == Zeros(a) + Zeros(b)
  {
  }

  /** Both ways of noticing the carry out of the low half agree. */
  lemma CarryTests(lo: u32, add: u32, lo': u32)
    requires lo' == (lo + add) % 0x1_0000_0000
    ensures lo' < lo <==> lo' < add
    ensures lo + add == lo' + 0x1_0000_0000 * (if lo' < add then 1 else 0)
  {
  }

  /**
   The two 32-bit halves of the bit counter after len octets are added to n: the
   low half keeps its carry, the high half takes the carry and the three bits that
   the shift pushed out.
   */
  lemma CounterCarries(n: nat, len: u32, lo: u32, hi: u32, lo': u32, hi1: u32, hi': u32)
    requires lo + 0x1_0000_0000 * hi == BitLength(n)
    requires lo' == (lo + 8 * len % 0x1_0000_0000) % 0x1_0000_0000
    requires hi1 == if lo' < 8 * len % 0x1_0000_0000 then (hi + 1) % 0x1_0000_0000 else hi
    requires hi' == (hi1 + len / 0x2000_0000) % 0x1_0000_0000
    ensures lo' + 0x1_0000_0000 * hi' == BitLength(n + len)
  {
    var add := 8 * len % 0x1_0000_0000;
    var top := len / 0x2000_0000;
    assert 8 * len == add + 0x1_0000_0000 * top;
    CarryTests(lo, add, lo');
    var q := 8 * n / (0x1_0000_0000_0000_0000);
    assert 8 * n == lo + 0x1_0000_0000 * hi + 0x1_0000_0000_0000_0000 * q;
    var k := CarryIntoHigh(hi, if lo' < add then 1 else 0, top, hi1, hi');
    RemainderIs(8 * (n + len), lo' + 0x1_0000_0000 * hi', q + k);
  }

  lemma CarryIntoHigh(hi: u32, c: nat, top: nat, hi1: u32, hi': u32) returns (k: nat)
    requires c <= 1 && top < 8
    requires hi1 == if c == 1 then (hi + 1) % 0x1_0000_0000 else hi
    requires hi' == (hi1 + top) % 0x1_0000_0000
    ensures hi' == hi + c + top - 0x1_0000_0000 * k
  {
    var k1 := if hi + c == 0x1_0000_0000 then 1 else 0;
    var k2 := if hi1 + top >= 0x1_0000_0000 then 1 else 0;
    k := k1 + k2;
  }

  lemma RemainderIs(x: nat, r: nat, q: int)
    requires x == r + 0x1_0000_0000_0000_0000 * q && r < 0x1_0000_0000_0000_0000
    ensures x % 0x1_0000_0000_0000_0000 == r
  {
  }

  /** The low half of the counter tells how many octets wait in the buffer. */
  lemma CounterIndex(n: nat, lo: u32, hi: u32)
    requires lo + 0x1_0000_0000 * hi == BitLength(n)
    ensures lo / 8 % 64 == n % 64
    ensures lo % 8 == 0
  {
    var q := 8 * n / 0x1_0000_0000_0000_0000;
    assert 8 * n == lo + 0x1_0000_0000 * hi + 0x1_0000_0000_0000_0000 * q;
    assert lo == 8 * (n - 0x2000_0000 * hi - 0x2000_0000_0000_0000 * q);
    assert n == lo / 8 + 64 * (0x80_0000 * hi + 0x80_0000_0000_0000 * q);
  }
}
