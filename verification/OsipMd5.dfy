/** The RSA-derived MD5 of the algorithm toolkit: context, update and finalization in place. */
module OsipMd5 {
  import opened Bytes
  import opened HashStream
  import opened Md5Spec
  import opened Memory
  import opened WordOps

  /** The arithmetic of the FF, GG, HH and II macros, in the order they add. */
  function Turn(a: bv32, f: bv32, x: bv32, s: nat, ac: bv32, b: bv32): bv32
    requires s <= 32
  {
    Rotl(a + ((f + x) + ac), s) + b
  }

  lemma TurnIsOperation(a: bv32, f: bv32, x: bv32, s: nat, ac: bv32, b: bv32)
    requires s <= 32
    ensures Turn(a, f, x, s, ac, b) == Operation(a, f, x, ac, s, b)
  {
    hide Rotl;
  }

  method Ff(ghost i: nat, ghost xs: seq<bv32>, ghost r0: Regs,
            a: bv32, b: bv32, c: bv32, d: bv32, x: bv32, s: nat, ac: u32) returns (a': bv32)
    requires 0 <= i < 16 && |xs| == 16 && Steps(i, xs, r0) == Regs(a, b, c, d)
    requires x == xs[WordIndex(i)] && s == Shift(i) && ac == Sine(i)
    ensures Steps(i + 1, xs, r0) == Regs(d, a', b, c)
  {
    hide F, Sine, Shift, WordIndex, Turn, Operation;
    a' := Turn(a, F(b, c, d), x, s, ac as bv32, b);
    TurnIsOperation(a, F(b, c, d), x, s, ac as bv32, b);
  }

  method Gg(ghost i: nat, ghost xs: seq<bv32>, ghost r0: Regs,
            a: bv32, b: bv32, c: bv32, d: bv32, x: bv32, s: nat, ac: u32) returns (a': bv32)
    requires 16 <= i < 32 && |xs| == 16 && Steps(i, xs, r0) == Regs(a, b, c, d)
    requires x == xs[WordIndex(i)] && s == Shift(i) && ac == Sine(i)
    ensures Steps(i + 1, xs, r0) == Regs(d, a', b, c)
  {
    hide G, Sine, Shift, WordIndex, Turn, Operation;
    a' := Turn(a, G(b, c, d), x, s, ac as bv32, b);
    TurnIsOperation(a, G(b, c, d), x, s, ac as bv32, b);
  }

  method Hh(ghost i: nat, ghost xs: seq<bv32>, ghost r0: Regs,
            a: bv32, b: bv32, c: bv32, d: bv32, x: bv32, s: nat, ac: u32) returns (a': bv32)
    requires 32 <= i < 48 && |xs| == 16 && Steps(i, xs, r0) == Regs(a, b, c, d)
    requires x == xs[WordIndex(i)] && s == Shift(i) && ac == Sine(i)
    ensures Steps(i + 1, xs, r0) == Regs(d, a', b, c)
  {
    hide H, Sine, Shift, WordIndex, Turn, Operation;
    a' := Turn(a, H(b, c, d), x, s, ac as bv32, b);
    TurnIsOperation(a, H(b, c, d), x, s, ac as bv32, b);
  }

  method Ii(ghost i: nat, ghost xs: seq<bv32>, ghost r0: Regs,
            a: bv32, b: bv32, c: bv32, d: bv32, x: bv32, s: nat, ac: u32) returns (a': bv32)
    requires 48 <= i < 64 && |xs| == 16 && Steps(i, xs, r0) == Regs(a, b, c, d)
    requires x == xs[WordIndex(i)] && s == Shift(i) && ac == Sine(i)
    ensures Steps(i + 1, xs, r0) == Regs(d, a', b, c)
  {
    hide I, Sine, Shift, WordIndex, Turn, Operation;
    a' := Turn(a, I(b, c, d), x, s, ac as bv32, b);
    TurnIsOperation(a, I(b, c, d), x, s, ac as bv32, b);
  }

  method Round1a(r0: Regs, x: seq<bv32>, r: Regs) returns (q: Regs)
    requires |x| == 16 && r == Steps(0, x, r0)
    ensures q == Steps(8, x, r0)
  {
    hide Steps;
    var a, b, c, d := r.a, r.b, r.c, r.d;
    a := Ff(0, x, r0, a, b, c, d, x[0], 7, 0xd76aa478);
    d := Ff(1, x, r0, d, a, b, c, x[1], 12, 0xe8c7b756);
    c := Ff(2, x, r0, c, d, a, b, x[2], 17, 0x242070db);
    b := Ff(3, x, r0, b, c, d, a, x[3], 22, 0xc1bdceee);
    a := Ff(4, x, r0, a, b, c, d, x[4], 7, 0xf57c0faf);
    d := Ff(5, x, r0, d, a, b, c, x[5], 12, 0x4787c62a);
    c := Ff(6, x, r0, c, d, a, b, x[6], 17, 0xa8304613);
    b := Ff(7, x, r0, b, c, d, a, x[7], 22, 0xfd469501);
    q := Regs(a, b, c, d);
  }

  method Round1b(r0: Regs, x: seq<bv32>, r: Regs) returns (q: Regs)
    requires |x| == 16 && r == Steps(8, x, r0)
    ensures q == Steps(16, x, r0)
  {
    hide Steps;
    var a, b, c, d := r.a, r.b, r.c, r.d;
    a := Ff(8, x, r0, a, b, c, d, x[8], 7, 0x698098d8);
    d := Ff(9, x, r0, d, a, b, c, x[9], 12, 0x8b44f7af);
    c := Ff(10, x, r0, c, d, a, b, x[10], 17, 0xffff5bb1);
    b := Ff(11, x, r0, b, c, d, a, x[11], 22, 0x895cd7be);
    a := Ff(12, x, r0, a, b, c, d, x[12], 7, 0x6b901122);
    d := Ff(13, x, r0, d, a, b, c, x[13], 12, 0xfd987193);
    c := Ff(14, x, r0, c, d, a, b, x[14], 17, 0xa679438e);
    b := Ff(15, x, r0, b, c, d, a, x[15], 22, 0x49b40821);
    q := Regs(a, b, c, d);
  }

  method Round2a(r0: Regs, x: seq<bv32>, r: Regs) returns (q: Regs)
    requires |x| == 16 && r == Steps(16, x, r0)
    ensures q == Steps(24, x, r0)
  {
    hide Steps;
    var a, b, c, d := r.a, r.b, r.c, r.d;
    a := Gg(16, x, r0, a, b, c, d, x[1], 5, 0xf61e2562);
    d := Gg(17, x, r0, d, a, b, c, x[6], 9, 0xc040b340);
    c := Gg(18, x, r0, c, d, a, b, x[11], 14, 0x265e5a51);
    b := Gg(19, x, r0, b, c, d, a, x[0], 20, 0xe9b6c7aa);
    a := Gg(20, x, r0, a, b, c, d, x[5], 5, 0xd62f105d);
    d := Gg(21, x, r0, d, a, b, c, x[10], 9, 0x02441453);
    c := Gg(22, x, r0, c, d, a, b, x[15], 14, 0xd8a1e681);
    b := Gg(23, x, r0, b, c, d, a, x[4], 20, 0xe7d3fbc8);
    q := Regs(a, b, c, d);
  }

  method Round2b(r0: Regs, x: seq<bv32>, r: Regs) returns (q: Regs)
    requires |x| == 16 && r == Steps(24, x, r0)
    ensures q == Steps(32, x, r0)
  {
    hide Steps;
    var a, b, c, d := r.a, r.b, r.c, r.d;
    a := Gg(24, x, r0, a, b, c, d, x[9], 5, 0x21e1cde6);
    d := Gg(25, x, r0, d, a, b, c, x[14], 9, 0xc33707d6);
    c := Gg(26, x, r0, c, d, a, b, x[3], 14, 0xf4d50d87);
    b := Gg(27, x, r0, b, c, d, a, x[8], 20, 0x455a14ed);
    a := Gg(28, x, r0, a, b, c, d, x[13], 5, 0xa9e3e905);
    d := Gg(29, x, r0, d, a, b, c, x[2], 9, 0xfcefa3f8);
    c := Gg(30, x, r0, c, d, a, b, x[7], 14, 0x676f02d9);
    b := Gg(31, x, r0, b, c, d, a, x[12], 20, 0x8d2a4c8a);
    q := Regs(a, b, c, d);
  }

  method Round3a(r0: Regs, x: seq<bv32>, r: Regs) returns (q: Regs)
    requires |x| == 16 && r == Steps(32, x, r0)
    ensures q == Steps(40, x, r0)
  {
    hide Steps;
    var a, b, c, d := r.a, r.b, r.c, r.d;
    a := Hh(32, x, r0, a, b, c, d, x[5], 4, 0xfffa3942);
    d := Hh(33, x, r0, d, a, b, c, x[8], 11, 0x8771f681);
    c := Hh(34, x, r0, c, d, a, b, x[11], 16, 0x6d9d6122);
    b := Hh(35, x, r0, b, c, d, a, x[14], 23, 0xfde5380c);
    a := Hh(36, x, r0, a, b, c, d, x[1], 4, 0xa4beea44);
    d := Hh(37, x, r0, d, a, b, c, x[4], 11, 0x4bdecfa9);
    c := Hh(38, x, r0, c, d, a, b, x[7], 16, 0xf6bb4b60);
    b := Hh(39, x, r0, b, c, d, a, x[10], 23, 0xbebfbc70);
    q := Regs(a, b, c, d);
  }

  method Round3b(r0: Regs, x: seq<bv32>, r: Regs) returns (q: Regs)
    requires |x| == 16 && r == Steps(40, x, r0)
    ensures q == Steps(48, x, r0)
  {
    hide Steps;
    var a, b, c, d := r.a, r.b, r.c, r.d;
    a := Hh(40, x, r0, a, b, c, d, x[13], 4, 0x289b7ec6);
    d := Hh(41, x, r0, d, a, b, c, x[0], 11, 0xeaa127fa);
    c := Hh(42, x, r0, c, d, a, b, x[3], 16, 0xd4ef3085);
    b := Hh(43, x, r0, b, c, d, a, x[6], 23, 0x04881d05);
    a := Hh(44, x, r0, a, b, c, d, x[9], 4, 0xd9d4d039);
    d := Hh(45, x, r0, d, a, b, c, x[12], 11, 0xe6db99e5);
    c := Hh(46, x, r0, c, d, a, b, x[15], 16, 0x1fa27cf8);
    b := Hh(47, x, r0, b, c, d, a, x[2], 23, 0xc4ac5665);
    q := Regs(a, b, c, d);
  }

  method Round4a(r0: Regs, x: seq<bv32>, r: Regs) returns (q: Regs)
    requires |x| == 16 && r == Steps(48, x, r0)
    ensures q == Steps(56, x, r0)
  {
    hide Steps;
    var a, b, c, d := r.a, r.b, r.c, r.d;
    a := Ii(48, x, r0, a, b, c, d, x[0], 6, 0xf4292244);
    d := Ii(49, x, r0, d, a, b, c, x[7], 10, 0x432aff97);
    c := Ii(50, x, r0, c, d, a, b, x[14], 15, 0xab9423a7);
    b := Ii(51, x, r0, b, c, d, a, x[5], 21, 0xfc93a039);
    a := Ii(52, x, r0, a, b, c, d, x[12], 6, 0x655b59c3);
    d := Ii(53, x, r0, d, a, b, c, x[3], 10, 0x8f0ccc92);
    c := Ii(54, x, r0, c, d, a, b, x[10], 15, 0xffeff47d);
    b := Ii(55, x, r0, b, c, d, a, x[1], 21, 0x85845dd1);
    q := Regs(a, b, c, d);
  }

  method Round4b(r0: Regs, x: seq<bv32>, r: Regs) returns (q: Regs)
    requires |x| == 16 && r == Steps(56, x, r0)
    ensures q == Steps(64, x, r0)
  {
    hide Steps;
    var a, b, c, d := r.a, r.b, r.c, r.d;
    a := Ii(56, x, r0, a, b, c, d, x[8], 6, 0x6fa87e4f);
    d := Ii(57, x, r0, d, a, b, c, x[15], 10, 0xfe2ce6e0);
    c := Ii(58, x, r0, c, d, a, b, x[6], 15, 0xa3014314);
    b := Ii(59, x, r0, b, c, d, a, x[13], 21, 0x4e0811a1);
    a := Ii(60, x, r0, a, b, c, d, x[4], 6, 0xf7537e82);
    d := Ii(61, x, r0, d, a, b, c, x[11], 10, 0xbd3af235);
    c := Ii(62, x, r0, c, d, a, b, x[2], 15, 0x2ad7d2bb);
    b := Ii(63, x, r0, b, c, d, a, x[9], 21, 0xeb86d391);
    q := Regs(a, b, c, d);
  }

  method Decode(block: Block) returns (x: seq<bv32>)
    ensures x == Words(block)
  {
    x := [];
    var j := 0;
    while j < 64
      invariant 0 <= j <= 64 && j == 4 * |x|
      invariant x == Words(block)[..|x|]
    {
      hide LeWord;
      x := x + [LeWord(block[j], block[j + 1], block[j + 2], block[j + 3])];
      j := j + 4;
    }
  }

  method Transform(state: Regs, block: Block) returns (r: Regs)
    ensures r == Compress(state, block)
  {
    hide Steps;
    var x := Decode(block);
    StepsZero(x, state);
    r := Round1a(state, x, state);
    r := Round1b(state, x, r);
    r := Round2a(state, x, r);
    r := Round2b(state, x, r);
    r := Round3a(state, x, r);
    r := Round3b(state, x, r);
    r := Round4a(state, x, r);
    r := Round4b(state, x, r);
    r := AddRegs(state, r);
  }

  method Encode(r: Regs) returns (output: seq<u8>)
    ensures output == Output(r)
  {
    output := LeOctets(r.a) + LeOctets(r.b) + LeOctets(r.c) + LeOctets(r.d);
  }

  const PADDING: seq<u8> := [0x80] + Zeros(63)

  /** The two-word bit counter, bumped by len octets. */
  method AddBits(lo: u32, hi: u32, len: u32, ghost n: nat) returns (lo': u32, hi': u32)
    requires lo + 0x1_0000_0000 * hi == BitLength(n)
    ensures lo' + 0x1_0000_0000 * hi' == BitLength(n + len)
  {
    hide *;
    var bits: u32 := 8 * len % 0x1_0000_0000;
    lo' := (lo + bits) % 0x1_0000_0000;
    hi' := hi;
    if lo' < bits {
      hi' := (hi + 1) % 0x1_0000_0000;
    }
    ghost var hi1 := hi';
    hi' := (hi' + len / 0x2000_0000) % 0x1_0000_0000;
    CounterCarries(n, len, lo, hi, lo', hi1, hi');
  }

  /**
   The loop over whole input blocks. Its unsigned test i + 63 < len cannot wrap exactly
   when the buffered octets and the input together stay below 2^32 (GuardCannotWrap).
   */
  method Blocks(st: Regs, input: seq<u8>, at: nat, ghost m: seq<u8>) returns (r: Regs, i: nat)
    requires at <= |input| && |m| % 64 + |input| < 0x1_0000_0000
    requires at == 64 - |m| % 64 && st == Fold(Compress, INITIAL, m + input[..at])
    ensures i <= |input| < i + 64 && (|m| + i) % 64 == 0
    ensures r == Fold(Compress, INITIAL, m + input[..i])
  {
    hide *;
    r, i := st, at;
    while (i + 63) % 0x1_0000_0000 < |input|
      invariant i <= |input| && (|m| + i) % 64 == 0
      invariant r == Fold(Compress, INITIAL, m + input[..i])
      decreases |input| - i
    {
      FoldNext(Compress, INITIAL, m, input, i);
      r := Transform(r, input[i..i + 64]);
      i := i + 64;
    }
  }

  class Context {
    var state: Regs
    var count0: u32
    var count1: u32
    const buffer: array<u8>

    constructor Init()
      ensures Represents(state, count0, count1, buffer[..], []) && fresh(buffer)
    {
      count0, count1 := 0, 0;
      state := INITIAL;
      buffer := new u8[64];
    }

    method Update(input: seq<u8>, ghost m: seq<u8>)
      requires Represents(state, count0, count1, buffer[..], m)
      requires |m| % 64 + |input| < 0x1_0000_0000
      modifies this, buffer
      ensures Represents(state, count0, count1, buffer[..], m + input)
    {
      hide *;
      Open(state, count0, count1, buffer[..], m);
      var len: u32 := |input|;
      var index := count0 / 8 % 64;
      CounterIndex(|m|, count0, count1);
      count0, count1 := AddBits(count0, count1, len, |m|);
      var partLen := 64 - index;
      var i := 0;
      FoldWhole(Compress, INITIAL, m);
      if len >= partLen {
        MemCopy(buffer, index, input[..partLen]);
        FillBlock(Compress, INITIAL, m, input[..partLen], buffer[..]);
        state := Transform(state, buffer[..]);
        i := partLen;
        state, i := Blocks(state, input, i, m);
        index := 0;
        LeftoverAt(Compress, INITIAL, m, input, i);
      } else {
        LeftoverShort(Compress, INITIAL, m, input);
      }
      MemCopy(buffer, index, input[i..]);
      Close(state, count0, count1, buffer[..], m + input);
    }

    method Final(ghost m: seq<u8>) returns (digest: seq<u8>)
      requires Represents(state, count0, count1, buffer[..], m)
      modifies this, buffer
      ensures digest == Md5(m)
      ensures state == Regs(0, 0, 0, 0) && count0 == count1 == 0 && buffer[..] == Zeros(64)
    {
      hide *;
      Open(state, count0, count1, buffer[..], m);
      var bits := Le32(count0) + Le32(count1);
      CountOctets(count0, count1, |m|);
      var index := count0 / 8 % 64;
      var padLen := if index < 56 then 56 - index else 120 - index;
      PaddingIsPad(m, padLen);
      Update(PaddingPrefix(padLen), m);
      Update(bits, m + PaddingPrefix(padLen));
      Open(state, count0, count1, buffer[..], m + PaddingPrefix(padLen) + bits);
      digest := Encode(state);
      DigestOf(m);
      state := Regs(0, 0, 0, 0);
      count0, count1 := 0, 0;
      Fill(buffer, 0, buffer.Length);
    }
  }

  /** Hexadecimal digest with its terminating zero. */
  method CvtHex(bin: seq<u8>) returns (hex: seq<u8>)
    ensures hex == Hex(bin) + [0]
  {
    hex := [];
    var i := 0;
    assert bin[..0] == [];
    while i < |bin|
      invariant 0 <= i <= |bin| && hex == Hex(bin[..i])
    {
      var j := bin[i] / 16;
      hex := hex + [if j <= 9 then j + 48 else j + 97 - 10];
      j := bin[i] % 16;
      hex := hex + [if j <= 9 then j + 48 else j + 97 - 10];
      HexNext(bin, i);
      i := i + 1;
    }
    assert bin[..i] == bin;
    hex := hex + [0];
  }

  method GenerateHashMd5(input: seq<u8>) returns (hex: seq<u8>)
    requires |input| < 0x1_0000_0000
    ensures hex == Hex(Md5(input)) + [0]
  {
    hide *;
    var context := new Context.Init();
    context.Update(input, []);
    assert [] + input == input;
    var digest := context.Final(input);
    hex := CvtHex(digest);
  }

  function PaddingPrefix(n: nat): (s: seq<u8>)
    requires n <= 64
    ensures |s| == n
  {
    PADDING[..n]
  }

  lemma PaddingIsPad(m: seq<u8>, padLen: nat)
    requires padLen == if |m| % 64 < 56 then 56 - |m| % 64 else 120 - |m| % 64
    ensures 1 <= padLen <= 64
    ensures m + PaddingPrefix(padLen) + LengthField(|m|) == Pad(m, LengthField(|m|))
    ensures |m| % 64 + padLen < 0x1_0000_0000
  {
    hide BitLength, LengthField;
    assert padLen == 1 + ZeroCount(|m|);
    assert PADDING[..padLen] == [0x80] + Zeros(ZeroCount(|m|));
  }

  /**
   The block loop visits i = 64 - index, then every 64 octets while a whole block is
   left. Its 32-bit test i + 63 < len agrees with the unbounded one at every position
   it can reach if and only if index + len stays below 2^32.
   */
  lemma GuardCannotWrap(index: nat, len: u32)
    requires index < 64
    ensures index + len < 0x1_0000_0000 <==>
            forall i: nat :: Visited(index, len, i) ==> ((i + 63) % 0x1_0000_0000 < len <==> i + 63 < len)
  {
    if index + len >= 0x1_0000_0000 {
      var i := 0x1_0000_0000 - index;
      assert i == 64 * (0x400_0000 - 1) + (64 - index);
      assert Visited(index, len, i);
      assert (i + 63) % 0x1_0000_0000 == 63 - index;
    } else {
      forall i: nat | Visited(index, len, i)
        ensures (i + 63) % 0x1_0000_0000 < len <==> i + 63 < len
      {
        assert index + i <= 0x1_0000_0000 - 64;
      }
    }
  }

  /** One octet buffered and the longest input there is: the last test lets the loop run on past the end. */
  lemma GuardWraps()
    ensures Visited(1, 0xffff_ffff, 0xffff_ffff)
    ensures (0xffff_ffff + 63) % 0x1_0000_0000 < 0xffff_ffff && !(0xffff_ffff + 63 < 0xffff_ffff)
  {
    assert 0xffff_ffff == 64 * (0x400_0000 - 1) + 63;
  }

  /** Positions the block loop can stand at when it has consumed whole blocks only. */
  ghost predicate Visited(index: nat, len: nat, i: nat) {
    64 - index <= i <= len && (index + i) % 64 == 0
  }
}
