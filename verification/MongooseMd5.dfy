/** The MD5 inside the web server, on a host of either byte order. */
module MongooseMd5 {
  import opened Bytes
  import opened HashStream
  import opened Md5Spec
  import opened Memory
  import opened WordOps

  // The optimized auxiliary functions.
  function F1(x: bv32, y: bv32, z: bv32): bv32 { z ^ (x & (y ^ z)) }

  function F2(x: bv32, y: bv32, z: bv32): bv32 { F1(z, x, y) }

  function F3(x: bv32, y: bv32, z: bv32): bv32 { x ^ y ^ z }

  function F4(x: bv32, y: bv32, z: bv32): bv32 { y ^ (x | !z) }

  lemma F1IsF(x: bv32, y: bv32, z: bv32)
    ensures F1(x, y, z) == F(x, y, z)
  {
    assert F(x, y, z) == z ^ (x & (y ^ z));
  }

  lemma F2IsG(x: bv32, y: bv32, z: bv32)
    ensures F2(x, y, z) == G(x, y, z)
  {
    assert G(x, y, z) == y ^ (z & (x ^ y));
  }

  lemma F3IsH(x: bv32, y: bv32, z: bv32)
    ensures F3(x, y, z) == H(x, y, z)
  {
  }

  lemma F4IsI(x: bv32, y: bv32, z: bv32)
    ensures F4(x, y, z) == I(x, y, z)
  {
  }

  /** The arithmetic of MD5STEP: the constant is added to the word first. */
  function Turn(w: bv32, f: bv32, data: bv32, ac: bv32, s: nat, x: bv32): bv32
    requires s <= 32
  {
    Rotl(w + (f + (data + ac)), s) + x
  }

  lemma TurnIsOperation(w: bv32, f: bv32, data: bv32, ac: bv32, s: nat, x: bv32)
    requires s <= 32
    ensures Turn(w, f, data, ac, s, x) == Operation(w, f, data, ac, s, x)
  {
    hide Rotl;
  }

  method Step1(ghost i: nat, ghost xs: seq<bv32>, ghost r0: Regs,
               a: bv32, b: bv32, c: bv32, d: bv32, data: bv32, ac: u32, s: nat) returns (a': bv32)
    requires 0 <= i < 16 && |xs| == 16 && Steps(i, xs, r0) == Regs(a, b, c, d)
    requires data == xs[WordIndex(i)] && s == Shift(i) && ac == Sine(i)
    ensures Steps(i + 1, xs, r0) == Regs(d, a', b, c)
  {
    hide F, F1, Sine, Shift, WordIndex, Turn, Operation;
    a' := Turn(a, F1(b, c, d), data, ac as bv32, s, b);
    F1IsF(b, c, d);
    TurnIsOperation(a, F1(b, c, d), data, ac as bv32, s, b);
  }

  method Step2(ghost i: nat, ghost xs: seq<bv32>, ghost r0: Regs,
               a: bv32, b: bv32, c: bv32, d: bv32, data: bv32, ac: u32, s: nat) returns (a': bv32)
    requires 16 <= i < 32 && |xs| == 16 && Steps(i, xs, r0) == Regs(a, b, c, d)
    requires data == xs[WordIndex(i)] && s == Shift(i) && ac == Sine(i)
    ensures Steps(i + 1, xs, r0) == Regs(d, a', b, c)
  {
    hide G, F2, Sine, Shift, WordIndex, Turn, Operation;
    a' := Turn(a, F2(b, c, d), data, ac as bv32, s, b);
    F2IsG(b, c, d);
    TurnIsOperation(a, F2(b, c, d), data, ac as bv32, s, b);
  }

  method Step3(ghost i: nat, ghost xs: seq<bv32>, ghost r0: Regs,
               a: bv32, b: bv32, c: bv32, d: bv32, data: bv32, ac: u32, s: nat) returns (a': bv32)
    requires 32 <= i < 48 && |xs| == 16 && Steps(i, xs, r0) == Regs(a, b, c, d)
    requires data == xs[WordIndex(i)] && s == Shift(i) && ac == Sine(i)
    ensures Steps(i + 1, xs, r0) == Regs(d, a', b, c)
  {
    hide H, F3, Sine, Shift, WordIndex, Turn, Operation;
    a' := Turn(a, F3(b, c, d), data, ac as bv32, s, b);
    F3IsH(b, c, d);
    TurnIsOperation(a, F3(b, c, d), data, ac as bv32, s, b);
  }

  method Step4(ghost i: nat, ghost xs: seq<bv32>, ghost r0: Regs,
               a: bv32, b: bv32, c: bv32, d: bv32, data: bv32, ac: u32, s: nat) returns (a': bv32)
    requires 48 <= i < 64 && |xs| == 16 && Steps(i, xs, r0) == Regs(a, b, c, d)
    requires data == xs[WordIndex(i)] && s == Shift(i) && ac == Sine(i)
    ensures Steps(i + 1, xs, r0) == Regs(d, a', b, c)
  {
    hide I, F4, Sine, Shift, WordIndex, Turn, Operation;
    a' := Turn(a, F4(b, c, d), data, ac as bv32, s, b);
    F4IsI(b, c, d);
    TurnIsOperation(a, F4(b, c, d), data, ac as bv32, s, b);
  }

  method Round1a(r0: Regs, x: seq<bv32>, r: Regs) returns (q: Regs)
    requires |x| == 16 && r == Steps(0, x, r0)
    ensures q == Steps(8, x, r0)
  {
    hide Steps;
    var a, b, c, d := r.a, r.b, r.c, r.d;
    a := Step1(0, x, r0, a, b, c, d, x[0], 0xd76aa478, 7);
    d := Step1(1, x, r0, d, a, b, c, x[1], 0xe8c7b756, 12);
    c := Step1(2, x, r0, c, d, a, b, x[2], 0x242070db, 17);
    b := Step1(3, x, r0, b, c, d, a, x[3], 0xc1bdceee, 22);
    a := Step1(4, x, r0, a, b, c, d, x[4], 0xf57c0faf, 7);
    d := Step1(5, x, r0, d, a, b, c, x[5], 0x4787c62a, 12);
    c := Step1(6, x, r0, c, d, a, b, x[6], 0xa8304613, 17);
    b := Step1(7, x, r0, b, c, d, a, x[7], 0xfd469501, 22);
    q := Regs(a, b, c, d);
  }

  method Round1b(r0: Regs, x: seq<bv32>, r: Regs) returns (q: Regs)
    requires |x| == 16 && r == Steps(8, x, r0)
    ensures q == Steps(16, x, r0)
  {
    hide Steps;
    var a, b, c, d := r.a, r.b, r.c, r.d;
    a := Step1(8, x, r0, a, b, c, d, x[8], 0x698098d8, 7);
    d := Step1(9, x, r0, d, a, b, c, x[9], 0x8b44f7af, 12);
    c := Step1(10, x, r0, c, d, a, b, x[10], 0xffff5bb1, 17);
    b := Step1(11, x, r0, b, c, d, a, x[11], 0x895cd7be, 22);
    a := Step1(12, x, r0, a, b, c, d, x[12], 0x6b901122, 7);
    d := Step1(13, x, r0, d, a, b, c, x[13], 0xfd987193, 12);
    c := Step1(14, x, r0, c, d, a, b, x[14], 0xa679438e, 17);
    b := Step1(15, x, r0, b, c, d, a, x[15], 0x49b40821, 22);
    q := Regs(a, b, c, d);
  }

  method Round2a(r0: Regs, x: seq<bv32>, r: Regs) returns (q: Regs)
    requires |x| == 16 && r == Steps(16, x, r0)
    ensures q == Steps(24, x, r0)
  {
    hide Steps;
    var a, b, c, d := r.a, r.b, r.c, r.d;
    a := Step2(16, x, r0, a, b, c, d, x[1], 0xf61e2562, 5);
    d := Step2(17, x, r0, d, a, b, c, x[6], 0xc040b340, 9);
    c := Step2(18, x, r0, c, d, a, b, x[11], 0x265e5a51, 14);
    b := Step2(19, x, r0, b, c, d, a, x[0], 0xe9b6c7aa, 20);
    a := Step2(20, x, r0, a, b, c, d, x[5], 0xd62f105d, 5);
    d := Step2(21, x, r0, d, a, b, c, x[10], 0x02441453, 9);
    c := Step2(22, x, r0, c, d, a, b, x[15], 0xd8a1e681, 14);
    b := Step2(23, x, r0, b, c, d, a, x[4], 0xe7d3fbc8, 20);
    q := Regs(a, b, c, d);
  }

  method Round2b(r0: Regs, x: seq<bv32>, r: Regs) returns (q: Regs)
    requires |x| == 16 && r == Steps(24, x, r0)
    ensures q == Steps(32, x, r0)
  {
    hide Steps;
    var a, b, c, d := r.a, r.b, r.c, r.d;
    a := Step2(24, x, r0, a, b, c, d, x[9], 0x21e1cde6, 5);
    d := Step2(25, x, r0, d, a, b, c, x[14], 0xc33707d6, 9);
    c := Step2(26, x, r0, c, d, a, b, x[3], 0xf4d50d87, 14);
    b := Step2(27, x, r0, b, c, d, a, x[8], 0x455a14ed, 20);
    a := Step2(28, x, r0, a, b, c, d, x[13], 0xa9e3e905, 5);
    d := Step2(29, x, r0, d, a, b, c, x[2], 0xfcefa3f8, 9);
    c := Step2(30, x, r0, c, d, a, b, x[7], 0x676f02d9, 14);
    b := Step2(31, x, r0, b, c, d, a, x[12], 0x8d2a4c8a, 20);
    q := Regs(a, b, c, d);
  }

  method Round3a(r0: Regs, x: seq<bv32>, r: Regs) returns (q: Regs)
    requires |x| == 16 && r == Steps(32, x, r0)
    ensures q == Steps(40, x, r0)
  {
    hide Steps;
    var a, b, c, d := r.a, r.b, r.c, r.d;
    a := Step3(32, x, r0, a, b, c, d, x[5], 0xfffa3942, 4);
    d := Step3(33, x, r0, d, a, b, c, x[8], 0x8771f681, 11);
    c := Step3(34, x, r0, c, d, a, b, x[11], 0x6d9d6122, 16);
    b := Step3(35, x, r0, b, c, d, a, x[14], 0xfde5380c, 23);
    a := Step3(36, x, r0, a, b, c, d, x[1], 0xa4beea44, 4);
    d := Step3(37, x, r0, d, a, b, c, x[4], 0x4bdecfa9, 11);
    c := Step3(38, x, r0, c, d, a, b, x[7], 0xf6bb4b60, 16);
    b := Step3(39, x, r0, b, c, d, a, x[10], 0xbebfbc70, 23);
    q := Regs(a, b, c, d);
  }

  method Round3b(r0: Regs, x: seq<bv32>, r: Regs) returns (q: Regs)
    requires |x| == 16 && r == Steps(40, x, r0)
    ensures q == Steps(48, x, r0)
  {
    hide Steps;
    var a, b, c, d := r.a, r.b, r.c, r.d;
    a := Step3(40, x, r0, a, b, c, d, x[13], 0x289b7ec6, 4);
    d := Step3(41, x, r0, d, a, b, c, x[0], 0xeaa127fa, 11);
    c := Step3(42, x, r0, c, d, a, b, x[3], 0xd4ef3085, 16);
    b := Step3(43, x, r0, b, c, d, a, x[6], 0x04881d05, 23);
    a := Step3(44, x, r0, a, b, c, d, x[9], 0xd9d4d039, 4);
    d := Step3(45, x, r0, d, a, b, c, x[12], 0xe6db99e5, 11);
    c := Step3(46, x, r0, c, d, a, b, x[15], 0x1fa27cf8, 16);
    b := Step3(47, x, r0, b, c, d, a, x[2], 0xc4ac5665, 23);
    q := Regs(a, b, c, d);
  }

  method Round4a(r0: Regs, x: seq<bv32>, r: Regs) returns (q: Regs)
    requires |x| == 16 && r == Steps(48, x, r0)
    ensures q == Steps(56, x, r0)
  {
    hide Steps;
    var a, b, c, d := r.a, r.b, r.c, r.d;
    a := Step4(48, x, r0, a, b, c, d, x[0], 0xf4292244, 6);
    d := Step4(49, x, r0, d, a, b, c, x[7], 0x432aff97, 10);
    c := Step4(50, x, r0, c, d, a, b, x[14], 0xab9423a7, 15);
    b := Step4(51, x, r0, b, c, d, a, x[5], 0xfc93a039, 21);
    a := Step4(52, x, r0, a, b, c, d, x[12], 0x655b59c3, 6);
    d := Step4(53, x, r0, d, a, b, c, x[3], 0x8f0ccc92, 10);
    c := Step4(54, x, r0, c, d, a, b, x[10], 0xffeff47d, 15);
    b := Step4(55, x, r0, b, c, d, a, x[1], 0x85845dd1, 21);
    q := Regs(a, b, c, d);
  }

  method Round4b(r0: Regs, x: seq<bv32>, r: Regs) returns (q: Regs)
    requires |x| == 16 && r == Steps(56, x, r0)
    ensures q == Steps(64, x, r0)
  {
    hide Steps;
    var a, b, c, d := r.a, r.b, r.c, r.d;
    a := Step4(56, x, r0, a, b, c, d, x[8], 0x6fa87e4f, 6);
    d := Step4(57, x, r0, d, a, b, c, x[15], 0xfe2ce6e0, 10);
    c := Step4(58, x, r0, c, d, a, b, x[6], 0xa3014314, 15);
    b := Step4(59, x, r0, b, c, d, a, x[13], 0x4e0811a1, 21);
    a := Step4(60, x, r0, a, b, c, d, x[4], 0xf7537e82, 6);
    d := Step4(61, x, r0, d, a, b, c, x[11], 0xbd3af235, 10);
    c := Step4(62, x, r0, c, d, a, b, x[2], 0x2ad7d2bb, 15);
    b := Step4(63, x, r0, b, c, d, a, x[9], 0xeb86d391, 21);
    q := Regs(a, b, c, d);
  }

  /** Octets in groups of four, each group back to front. */
  function Rev4(s: seq<u8>): (r: seq<u8>)
    requires |s| % 4 == 0
    ensures |r| == |s|
  {
    seq(|s|, i requires 0 <= i < |s| => (MirrorInside(i, |s|); s[Mirror(i)]))
  }

  /** The place opposite to i in its word. */
  function Mirror(i: nat): nat {
    i + 3 - 2 * (i % 4)
  }

  lemma MirrorInside(i: nat, n: nat)
    requires n % 4 == 0
    ensures i < n ==> Mirror(i) < n
    ensures Mirror(n + i) == n + Mirror(i) && Mirror(Mirror(i)) == i
  {
  }

  lemma Rev4Twice(s: seq<u8>)
    requires |s| % 4 == 0
    ensures Rev4(Rev4(s)) == s
  {
    hide Mirror;
    forall i | 0 <= i < |s|
      ensures Rev4(Rev4(s))[i] == s[i]
    {
      MirrorInside(i, |s|);
    }
  }

  lemma Rev4Append(s: seq<u8>, t: seq<u8>)
    requires |s| % 4 == 0 && |t| % 4 == 0
    ensures Rev4(s + t) == Rev4(s) + Rev4(t)
  {
    hide Mirror;
    forall i | 0 <= i < |s|
      ensures Rev4(s + t)[i] == Rev4(s)[i]
    {
      MirrorInside(i, |s|);
    }
    forall i | 0 <= i < |t|
      ensures Rev4(s + t)[|s| + i] == Rev4(t)[i]
    {
      MirrorInside(i, |s|);
      MirrorInside(i, |t|);
    }
  }

  /** What a native word load makes of the octets of a buffer. */
  function HostView(big: bool, block: Block): Block {
    if big then Rev4(block) else block
  }

  function NativeStoreWord(big: bool, w: bv32): (s: seq<u8>)
    ensures |s| == 4
  {
    if big then Rev4(LeOctets(w)) else LeOctets(w)
  }

  /** One word: its little-endian value stored the way a big-endian host stores it. */
  method ReverseQuad(buf: array<u8>, at: nat)
    requires at + 4 <= buf.Length
    modifies buf
    ensures buf[..] == Quad(old(buf[..]), at)
  {
    hide Octet;
    var b0, b1, b2, b3 := buf[at], buf[at + 1], buf[at + 2], buf[at + 3];
    OctetsOfNum32(b0, b1, b2, b3);
    var s := Be32(Num32(b0, b1, b2, b3));
    buf[at], buf[at + 1], buf[at + 2], buf[at + 3] := s[0], s[1], s[2], s[3];
  }

  function Quad(m: seq<u8>, at: nat): (r: seq<u8>)
    requires at + 4 <= |m|
    ensures |r| == |m|
  {
    m[at := m[at + 3]][at + 1 := m[at + 2]][at + 2 := m[at + 1]][at + 3 := m[at]]
  }

  /** The memory once the first n words are reversed. */
  function Reversed(o: seq<u8>, n: nat): (r: seq<u8>)
    requires 4 * n <= |o|
    ensures |r| == |o|
  {
    Rev4(o[..4 * n]) + o[4 * n..]
  }

  lemma ReversedNext(o: seq<u8>, n: nat)
    requires 4 * n + 4 <= |o|
    ensures Quad(Reversed(o, n), 4 * n) == Reversed(o, n + 1)
  {
    hide Rev4;
    var a := 4 * n;
    var next := [o[a], o[a + 1], o[a + 2], o[a + 3]];
    Rev4Append(o[..a], next);
    Rev4Four(o[a], o[a + 1], o[a + 2], o[a + 3]);
    assert o[..a] + next == o[..a + 4];
    QuadInside(Rev4(o[..a]), o[a..]);
  }

  lemma QuadInside(front: seq<u8>, back: seq<u8>)
    requires 4 <= |back|
    ensures Quad(front + back, |front|) == front + [back[3], back[2], back[1], back[0]] + back[4..]
  {
  }

  /** Makes every word little-endian in memory; a no-op on a little-endian host. */
  method ByteReverse(big: bool, buf: array<u8>, longs: nat)
    requires 1 <= longs && 4 * longs <= buf.Length
    modifies buf
    ensures buf[..] == if big then Rev4(old(buf[..4 * longs])) + old(buf[4 * longs..]) else old(buf[..])
  {
    if big {
      hide *;
      ghost var o := buf[..];
      var i := 0;
      ReversedEnds(o, longs);
      while i < longs
        invariant 0 <= i <= longs
        invariant buf[..] == Reversed(o, i)
      {
        ReversedNext(o, i);
        ReverseQuad(buf, 4 * i);
        i := i + 1;
      }
    }
  }

  lemma ReversedEnds(o: seq<u8>, n: nat)
    requires 4 * n <= |o|
    ensures Reversed(o, 0) == o && Reversed(o, n) == Rev4(o[..4 * n]) + o[4 * n..]
  {
  }

  lemma Rev4Four(b0: u8, b1: u8, b2: u8, b3: u8)
    ensures Rev4([b0, b1, b2, b3]) == [b3, b2, b1, b0]
  {
  }

  lemma NativeLoadAt(big: bool, block: Block, i: nat)
    requires i < 16
    ensures NativeLoad(big, block[4 * i], block[4 * i + 1], block[4 * i + 2], block[4 * i + 3])
         == WordAt(HostView(big, block), i)
  {
    hide LeWord;
  }

  method LoadWords(big: bool, block: Block) returns (x: seq<bv32>)
    ensures x == Words(HostView(big, block))
  {
    hide LeWord, NativeLoad, HostView, WordAt;
    x := seq(16, i requires 0 <= i < 16 =>
                   NativeLoad(big, block[4 * i], block[4 * i + 1], block[4 * i + 2], block[4 * i + 3]));
    forall i | 0 <= i < 16
      ensures x[i] == Words(HostView(big, block))[i]
    {
      NativeLoadAt(big, block, i);
    }
  }

  method Transform(big: bool, buf: Regs, block: Block) returns (r: Regs)
    ensures r == Compress(buf, HostView(big, block))
  {
    hide Steps;
    var x := LoadWords(big, block);
    StepsZero(x, buf);
    r := Round1a(buf, x, buf);
    r := Round1b(buf, x, r);
    r := Round2a(buf, x, r);
    r := Round2b(buf, x, r);
    r := Round3a(buf, x, r);
    r := Round3b(buf, x, r);
    r := Round4a(buf, x, r);
    r := Round4b(buf, x, r);
    r := AddRegs(buf, r);
  }

  /** The two-word bit counter; this code tests the carry against the old low word. */
  method AddBits(lo: u32, hi: u32, len: u32, ghost n: nat) returns (lo': u32, hi': u32)
    requires lo + 0x1_0000_0000 * hi == BitLength(n)
    ensures lo' + 0x1_0000_0000 * hi' == BitLength(n + len)
  {
    hide *;
    lo' := (lo + 8 * len % 0x1_0000_0000) % 0x1_0000_0000;
    hi' := hi;
    if lo' < lo {
      hi' := (hi + 1) % 0x1_0000_0000;
    }
    ghost var hi1 := hi';
    hi' := (hi' + len / 0x2000_0000) % 0x1_0000_0000;
    CarryTests(lo, 8 * len % 0x1_0000_0000, lo');
    CounterCarries(n, len, lo, hi, lo', hi1, hi');
  }

  class Context {
    var buf: Regs
    var bits0: u32
    var bits1: u32
    const input: array<u8>
    const bigEndian: bool

    constructor Init(bigEndian: bool)
      ensures Represents(buf, bits0, bits1, input[..], []) && fresh(input)
    {
      buf, bits0, bits1 := INITIAL, 0, 0;
      input := new u8[64];
      this.bigEndian := bigEndian;
    }

    /** byteReverse of a full buffer, then the transformation. */
    method Absorb(ghost block: Block)
      requires input[..] == block
      modifies this`buf, input
      ensures input.Length == 64 && buf == Compress(old(buf), block)
    {
      hide Compress, Rev4;
      ByteReverse(bigEndian, input, 16);
      assert input[..] == HostView(bigEndian, block) by {
        assert block[..64] == block;
      }
      Rev4Twice(block);
      buf := Transform(bigEndian, buf, input[..]);
    }

    method Update(data: seq<u8>, ghost m: seq<u8>)
      requires Represents(buf, bits0, bits1, input[..], m)
      requires |data| < 0x1_0000_0000
      modifies this, input
      ensures Represents(buf, bits0, bits1, input[..], m + data)
    {
      hide *;
      Open(buf, bits0, bits1, input[..], m);
      var t := bits0 / 8 % 64;
      bits0, bits1 := AddBits(bits0, bits1, |data|, |m|);
      var at := 0;
      FoldWhole(Compress, INITIAL, m);
      if t != 0 {
        if |data| < 64 - t {
          MemCopy(input, t, data);
          LeftoverShort(Compress, INITIAL, m, data);
          Close(buf, bits0, bits1, input[..], m + data);
          return;
        }
        at := 64 - t;
        MemCopy(input, t, data[..at]);
        FillBlock(Compress, INITIAL, m, data[..at], input[..]);
        Absorb(input[..]);
      } else {
        assert m + data[..0] == m;
      }
      at := Blocks(data, at, m);
      MemCopy(input, 0, data[at..]);
      LeftoverAt(Compress, INITIAL, m, data, at);
      Close(buf, bits0, bits1, input[..], m + data);
    }

    /** The loop that copies each whole block into the buffer and transforms it there. */
    method Blocks(data: seq<u8>, from: nat, ghost m: seq<u8>) returns (at: nat)
      requires input.Length == 64 && from <= |data| && (|m| + from) % 64 == 0
      requires buf == Fold(Compress, INITIAL, m + data[..from])
      modifies this`buf, input
      ensures at <= |data| < at + 64 && (|m| + at) % 64 == 0
      ensures buf == Fold(Compress, INITIAL, m + data[..at])
    {
      hide *;
      at := from;
      while |data| - at >= 64
        invariant at <= |data| && (|m| + at) % 64 == 0
        invariant buf == Fold(Compress, INITIAL, m + data[..at])
      {
        MemCopy(input, 0, data[at..at + 64]);
        FoldNext(Compress, INITIAL, m, data, at);
        Absorb(data[at..at + 64]);
        at := at + 64;
      }
    }

    method Final(ghost m: seq<u8>) returns (digest: seq<u8>)
      requires Represents(buf, bits0, bits1, input[..], m)
      modifies this, input
      ensures digest == Md5(m)
    {
      hide *;
      Open(buf, bits0, bits1, input[..], m);
      var count := bits0 / 8 % 64;
      input[count] := 0x80;
      count := 63 - count;
      if count < 8 {
        Fill(input, 64 - count, count);
        ghost var b1 := input[..];
        assert b1 == Tail(m) + [0x80] + Zeros(63 - |m| % 64);
        Absorb(b1);
        Fill(input, 0, 56);
        LastBlock(Zeros(56), |m|);
        PadTwo(m, LengthField(|m|), b1, Zeros(56) + LengthField(|m|));
        FoldOntoTwo(Compress, INITIAL, m, Pad(m, LengthField(|m|)), b1, Zeros(56) + LengthField(|m|));
      } else {
        Fill(input, 64 - count, count - 8);
        assert input[..56] == Tail(m) + [0x80] + Zeros(55 - |m| % 64);
        ghost var last := Tail(m) + [0x80] + Zeros(55 - |m| % 64) + LengthField(|m|);
        LastBlock(Tail(m) + [0x80] + Zeros(55 - |m| % 64), |m|);
        PadOne(m, LengthField(|m|), last);
        FoldOnto(Compress, INITIAL, m, Pad(m, LengthField(|m|)), last);
      }
      DigestOf(m);
      digest := StoreDigest(bigEndian, buf);
      buf, bits0, bits1 := Regs(0, 0, 0, 0), 0, 0;
      Fill(input, 0, 64);
    }

    /** The length words are stored natively, so only the first fourteen words are reversed. */
    method LastBlock(ghost head: seq<u8>, ghost n: nat)
      requires input.Length == 64 && input[..56] == head
      requires bits0 + 0x1_0000_0000 * bits1 == BitLength(n)
      modifies this`buf, input
      ensures |head| == 56 && buf == Compress(old(buf), head + LengthField(n))
    {
      hide Compress, Rev4, BitLength, LengthField, Octet;
      ByteReverse(bigEndian, input, 14);
      MemCopy(input, 56, NativeStore(bigEndian, bits0));
      MemCopy(input, 60, NativeStore(bigEndian, bits1));
      CountOctets(bits0, bits1, n);
      HostViewOfLast(bigEndian, head, bits0, bits1);
      assert input[..] == (if bigEndian then Rev4(head) else head)
                          + NativeStore(bigEndian, bits0) + NativeStore(bigEndian, bits1);
      buf := Transform(bigEndian, buf, input[..]);
    }
  }

  lemma HostViewOfLast(big: bool, head: seq<u8>, lo: u32, hi: u32)
    requires |head| == 56
    ensures HostView(big, (if big then Rev4(head) else head) + NativeStore(big, lo) + NativeStore(big, hi))
         == head + (Le32(lo) + Le32(hi))
  {
    hide Octet, Rev4, Be32, Le32;
    if big {
      Rev4Twice(head);
      Rev4Append(Rev4(head) + Be32(lo), Be32(hi));
      Rev4Append(Rev4(head), Be32(lo));
      Rev4Be32(lo);
      Rev4Be32(hi);
    }
  }

  lemma Rev4Be32(w: u32)
    ensures Rev4(Be32(w)) == Le32(w)
  {
    hide Octet;
    Rev4Four(Octet(w, 3), Octet(w, 2), Octet(w, 1), Octet(w, 0));
  }

  lemma StoredDigest(big: bool, r: Regs, a: seq<u8>)
    requires a == NativeStoreWord(big, r.a) + NativeStoreWord(big, r.b)
                  + NativeStoreWord(big, r.c) + NativeStoreWord(big, r.d)
    ensures |a| == 16 && (if big then Rev4(a) else a) == Output(r)
  {
    hide Rev4, LeOctets;
    if big {
      var p, q, s, t := LeOctets(r.a), LeOctets(r.b), LeOctets(r.c), LeOctets(r.d);
      Rev4Append(Rev4(p) + Rev4(q) + Rev4(s), Rev4(t));
      Rev4Append(Rev4(p) + Rev4(q), Rev4(s));
      Rev4Append(Rev4(p), Rev4(q));
      Rev4Twice(p);
      Rev4Twice(q);
      Rev4Twice(s);
      Rev4Twice(t);
    }
  }

  method StoreDigest(big: bool, buf: Regs) returns (digest: seq<u8>)
    ensures digest == Output(buf)
  {
    hide Rev4, LeOctets, NativeStoreWord;
    var a := new u8[16];
    MemCopy(a, 0, NativeStoreWord(big, buf.a));
    MemCopy(a, 4, NativeStoreWord(big, buf.b));
    MemCopy(a, 8, NativeStoreWord(big, buf.c));
    MemCopy(a, 12, NativeStoreWord(big, buf.d));
    StoredDigest(big, buf, a[..]);
    ghost var stored := a[..];
    ByteReverse(big, a, 4);
    assert stored[..16] == stored;
    digest := a[..];
  }

  const HEX: seq<u8> := [48, 49, 50, 51, 52, 53, 54, 55, 56, 57, 97, 98, 99, 100, 101, 102]

  method Bin2Str(p: seq<u8>) returns (to: seq<u8>)
    ensures to == Hex(p) + [0]
  {
    to := [];
    var i := 0;
    assert p[..0] == [];
    while i < |p|
      invariant 0 <= i <= |p| && to == Hex(p[..i])
    {
      to := to + [HEX[p[i] / 16]];
      to := to + [HEX[p[i] % 16]];
      HexNext(p, i);
      i := i + 1;
    }
    assert p[..i] == p;
    to := to + [0];
  }

  /** The digest of the strings in the argument list, one after another. */
  method MgMd5(bigEndian: bool, strings: seq<seq<u8>>) returns (buf: seq<u8>)
    requires forall s :: s in strings ==> |s| < 0x1_0000_0000
    ensures buf == Hex(Md5(Concat(strings))) + [0]
  {
    hide Compress, Represents, Md5, Hex;
    var ctx := new Context.Init(bigEndian);
    var i := 0;
    assert strings[..0] == [];
    while i < |strings|
      invariant 0 <= i <= |strings| && fresh(ctx) && fresh(ctx.input)
      invariant Represents(ctx.buf, ctx.bits0, ctx.bits1, ctx.input[..], Concat(strings[..i]))
    {
      ctx.Update(strings[i], Concat(strings[..i]));
      assert strings[..i + 1] == strings[..i] + [strings[i]];
      ConcatSnoc(strings[..i], strings[i]);
      i := i + 1;
    }
    assert strings[..i] == strings;
    var hash := ctx.Final(Concat(strings));
    buf := Bin2Str(hash);
  }
}
