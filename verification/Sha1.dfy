/** The SHA-1 inside the web server: 16-word ring schedule, streaming update, finalization. */
module Sha1 {
  import opened Bytes
  import opened HashStream
  import opened WordOps
  import opened Memory
  import opened Sha1Spec
  import MongooseMd5

  // The logical functions as the R macros spell them.
  function Choose(w: bv32, x: bv32, y: bv32): bv32 { (w & (x ^ y)) ^ y }

  function Odd(w: bv32, x: bv32, y: bv32): bv32 { w ^ x ^ y }

  function Most(w: bv32, x: bv32, y: bv32): bv32 { ((w | x) & y) | (w & x) }

  lemma ChooseIsCh(w: bv32, x: bv32, y: bv32)
    ensures Choose(w, x, y) == Ch(w, x, y)
  {
    assert (w & (x ^ y)) ^ y == (w & x) ^ (!w & y);
  }

  lemma OddIsParity(w: bv32, x: bv32, y: bv32)
    ensures Odd(w, x, y) == Parity(w, x, y)
  {
  }

  lemma MostIsMaj(w: bv32, x: bv32, y: bv32)
    ensures Most(w, x, y) == Maj(w, x, y)
  {
    assert ((w | x) & y) | (w & x) == (w & x) ^ (w & y) ^ (x & y);
  }

  function Turn(z: bv32, f: bv32, word: bv32, k: u32, v: bv32): bv32 {
    z + (f + word + (k as bv32) + Rotl(v, 5))
  }

  lemma TurnIsSum(z: bv32, f: bv32, word: bv32, k: u32, v: bv32)
    ensures Turn(z, f, word, k, v) == Sum(v, f, z, k, word)
  {
    hide Rotl;
  }

  /** The swap of blk0: the octets of a word back to front. */
  function Swap(l: bv32): bv32 {
    (((l << 24) | (l >> 8)) & 0xff00ff00) | (((l << 8) | (l >> 24)) & 0x00ff00ff)
  }

  lemma SwapReverses(x0: bv8, x1: bv8, x2: bv8, x3: bv8)
    ensures Swap(Join(x0, x1, x2, x3)) == Join(x3, x2, x1, x0)
  {
  }

  function RawWord(big: bool, b: Block, i: nat): bv32
    requires i < 16
  {
    NativeLoad(big, b[4 * i], b[4 * i + 1], b[4 * i + 2], b[4 * i + 3])
  }

  /** The newest schedule index below t that lives in slot j. */
  function Newest(t: nat, j: nat): (k: nat)
    requires j < t && j < 16
    ensures k < t <= k + 16 && k % 16 == j
  {
    t - 1 - (t - 1 - j) % 16
  }

  /** Before step t, slot j holds its newest schedule word, or the raw word it was loaded with. */
  ghost predicate Ring(s: seq<bv32>, big: bool, b: Block, t: nat) {
    && |s| == 16
    && forall j :: 0 <= j < 16 ==> s[j] == if j < t then Schedule(b, Newest(t, j)) else RawWord(big, b, j)
  }

  lemma RingWord(s: seq<bv32>, big: bool, b: Block, t: nat, k: nat)
    requires Ring(s, big, b, t) && k < t <= k + 16
    ensures s[k % 16] == Schedule(b, k)
  {
    hide Schedule, RawWord, Newest;
    OneSlotOneWord(t, Newest(t, k % 16), k);
  }

  lemma OneSlotOneWord(t: nat, k: nat, l: nat)
    requires k < t <= k + 16 && l < t <= l + 16 && k % 16 == l % 16
    ensures k == l
  {
  }

  lemma RingStep(s: seq<bv32>, big: bool, b: Block, t: nat)
    requires Ring(s, big, b, t)
    ensures Ring(s[t % 16 := Schedule(b, t)], big, b, t + 1)
  {
    hide Schedule, RawWord, Newest;
    var u := s[t % 16 := Schedule(b, t)];
    forall j | 0 <= j < 16
      ensures u[j] == if j < t + 1 then Schedule(b, Newest(t + 1, j)) else RawWord(big, b, j)
    {
      NewestMoves(t, j);
    }
  }

  lemma NewestMoves(t: nat, j: nat)
    requires j < 16
    ensures j == t % 16 ==> j <= t && Newest(t + 1, j) == t
    ensures j < t && j != t % 16 ==> Newest(t + 1, j) == Newest(t, j)
    ensures t <= j && j != t % 16 ==> t + 1 <= j
  {
    hide Newest;
    if j == t % 16 {
      OneSlotOneWord(t + 1, Newest(t + 1, j), t);
    } else if j < t {
      var k := Newest(t, j);
      assert t % 16 == (t - 16) % 16;
      assert k != t - 16;
      OneSlotOneWord(t + 1, Newest(t + 1, j), k);
    }
  }

  lemma RawIsMessage(big: bool, b: Block, i: nat)
    requires i < 16
    ensures Schedule(b, i) == if big then RawWord(big, b, i) else Swap(RawWord(big, b, i))
  {
    hide Swap, Join;
    SwapReverses(b[4 * i] as bv8, b[4 * i + 1] as bv8, b[4 * i + 2] as bv8, b[4 * i + 3] as bv8);
  }

  method Blk0(big: bool, block: array<bv32>, i: nat, ghost b: Block) returns (word: bv32)
    requires i < 16 && Ring(block[..], big, b, i)
    modifies block
    ensures Ring(block[..], big, b, i + 1) && word == Schedule(b, i)
  {
    hide Swap, Schedule, RawWord;
    RingStep(block[..], big, b, i);
    RawIsMessage(big, b, i);
    assert block[i] == block[..][i] == RawWord(big, b, i);
    if !big {
      block[i] := Swap(block[i]);
    }
    word := block[i];
    assert block[..] == old(block[..])[i % 16 := Schedule(b, i)];
  }

  /** The ring read: i + 13, i + 8, i + 2 and i modulo 16 are i - 3, i - 8, i - 14 and i - 16. */
  method Blk(big: bool, block: array<bv32>, i: nat, ghost b: Block) returns (word: bv32)
    requires 16 <= i && Ring(block[..], big, b, i)
    modifies block
    ensures Ring(block[..], big, b, i + 1) && word == Schedule(b, i)
  {
    hide *;
    ghost var s := block[..];
    RingLength(s, big, b, i);
    word := Rotl(block[(i + 13) % 16] ^ block[(i + 8) % 16] ^ block[(i + 2) % 16] ^ block[i % 16], 1);
    RingRead(s, big, b, i);
    block[i % 16] := word;
    assert block[..] == s[i % 16 := Schedule(b, i)];
  }

  lemma RingRead(s: seq<bv32>, big: bool, b: Block, i: nat)
    requires 16 <= i && Ring(s, big, b, i)
    ensures |s| == 16
    ensures Rotl(s[(i + 13) % 16] ^ s[(i + 8) % 16] ^ s[(i + 2) % 16] ^ s[i % 16], 1) == Schedule(b, i)
    ensures Ring(s[i % 16 := Schedule(b, i)], big, b, i + 1)
  {
    hide *;
    RingLength(s, big, b, i);
    SameSlots(i);
    RingWord(s, big, b, i, i - 3);
    RingWord(s, big, b, i, i - 8);
    RingWord(s, big, b, i, i - 14);
    RingWord(s, big, b, i, i - 16);
    ScheduleNext(b, i);
    RingStep(s, big, b, i);
  }

  lemma SameSlots(i: nat)
    requires 16 <= i
    ensures (i + 13) % 16 == (i - 3) % 16 && (i + 8) % 16 == (i - 8) % 16
    ensures (i + 2) % 16 == (i - 14) % 16 && i % 16 == (i - 16) % 16
  {
  }

  lemma RingLength(s: seq<bv32>, big: bool, b: Block, t: nat)
    requires Ring(s, big, b, t)
    ensures |s| == 16
  {
  }

  method R0(big: bool, block: array<bv32>, i: nat, v: bv32, w: bv32, x: bv32, y: bv32, z: bv32,
            ghost b: Block, ghost r0: Regs) returns (z': bv32, w': bv32)
    requires 0 <= i < 16 && Ring(block[..], big, b, i) && Steps(i, b, r0) == Regs(v, w, x, y, z)
    modifies block
    ensures Ring(block[..], big, b, i + 1) && Steps(i + 1, b, r0) == Regs(z', v, w', x, y)
  {
    hide Rotl, Choose, Ch, Schedule, Ring, Sum, Turn, Step, Steps, RawWord;
    Advance(i, b, r0, v, w, x, y, z);
    var word := Blk0(big, block, i, b);
    z' := Turn(z, Choose(w, x, y), word, 0x5a827999, v);
    w' := Rotl(w, 30);
    ChooseIsCh(w, x, y);
    TurnIsSum(z, Choose(w, x, y), word, 0x5a827999, v);
  }

  method R1(big: bool, block: array<bv32>, i: nat, v: bv32, w: bv32, x: bv32, y: bv32, z: bv32,
            ghost b: Block, ghost r0: Regs) returns (z': bv32, w': bv32)
    requires 16 <= i < 20 && Ring(block[..], big, b, i) && Steps(i, b, r0) == Regs(v, w, x, y, z)
    modifies block
    ensures Ring(block[..], big, b, i + 1) && Steps(i + 1, b, r0) == Regs(z', v, w', x, y)
  {
    hide Rotl, Choose, Ch, Schedule, Ring, Sum, Turn, Step, Steps, RawWord;
    Advance(i, b, r0, v, w, x, y, z);
    var word := Blk(big, block, i, b);
    z' := Turn(z, Choose(w, x, y), word, 0x5a827999, v);
    w' := Rotl(w, 30);
    ChooseIsCh(w, x, y);
    TurnIsSum(z, Choose(w, x, y), word, 0x5a827999, v);
  }

  method R2(big: bool, block: array<bv32>, i: nat, v: bv32, w: bv32, x: bv32, y: bv32, z: bv32,
            ghost b: Block, ghost r0: Regs) returns (z': bv32, w': bv32)
    requires 20 <= i < 40 && Ring(block[..], big, b, i) && Steps(i, b, r0) == Regs(v, w, x, y, z)
    modifies block
    ensures Ring(block[..], big, b, i + 1) && Steps(i + 1, b, r0) == Regs(z', v, w', x, y)
  {
    hide Rotl, Odd, Parity, Schedule, Ring, Sum, Turn, Step, Steps, RawWord;
    Advance(i, b, r0, v, w, x, y, z);
    var word := Blk(big, block, i, b);
    z' := Turn(z, Odd(w, x, y), word, 0x6ed9eba1, v);
    w' := Rotl(w, 30);
    OddIsParity(w, x, y);
    TurnIsSum(z, Odd(w, x, y), word, 0x6ed9eba1, v);
  }

  method R3(big: bool, block: array<bv32>, i: nat, v: bv32, w: bv32, x: bv32, y: bv32, z: bv32,
            ghost b: Block, ghost r0: Regs) returns (z': bv32, w': bv32)
    requires 40 <= i < 60 && Ring(block[..], big, b, i) && Steps(i, b, r0) == Regs(v, w, x, y, z)
    modifies block
    ensures Ring(block[..], big, b, i + 1) && Steps(i + 1, b, r0) == Regs(z', v, w', x, y)
  {
    hide Rotl, Most, Maj, Schedule, Ring, Sum, Turn, Step, Steps, RawWord;
    Advance(i, b, r0, v, w, x, y, z);
    var word := Blk(big, block, i, b);
    z' := Turn(z, Most(w, x, y), word, 0x8f1bbcdc, v);
    w' := Rotl(w, 30);
    MostIsMaj(w, x, y);
    TurnIsSum(z, Most(w, x, y), word, 0x8f1bbcdc, v);
  }

  method R4(big: bool, block: array<bv32>, i: nat, v: bv32, w: bv32, x: bv32, y: bv32, z: bv32,
            ghost b: Block, ghost r0: Regs) returns (z': bv32, w': bv32)
    requires 60 <= i < 80 && Ring(block[..], big, b, i) && Steps(i, b, r0) == Regs(v, w, x, y, z)
    modifies block
    ensures Ring(block[..], big, b, i + 1) && Steps(i + 1, b, r0) == Regs(z', v, w', x, y)
  {
    hide Rotl, Odd, Parity, Schedule, Ring, Sum, Turn, Step, Steps, RawWord;
    Advance(i, b, r0, v, w, x, y, z);
    var word := Blk(big, block, i, b);
    z' := Turn(z, Odd(w, x, y), word, 0xca62c1d6, v);
    w' := Rotl(w, 30);
    OddIsParity(w, x, y);
    TurnIsSum(z, Odd(w, x, y), word, 0xca62c1d6, v);
  }

  method Steps0(big: bool, block: array<bv32>, r: Regs, ghost b: Block, ghost r0: Regs) returns (q: Regs)
    requires Ring(block[..], big, b, 0) && Steps(0, b, r0) == r
    modifies block
    ensures Ring(block[..], big, b, 10) && Steps(10, b, r0) == q
  {
    hide Ring, Steps;
    var a, b1, c, d, e := r.a, r.b, r.c, r.d, r.e;
    e, b1 := R0(big, block, 0, a, b1, c, d, e, b, r0);
    d, a := R0(big, block, 1, e, a, b1, c, d, b, r0);
    c, e := R0(big, block, 2, d, e, a, b1, c, b, r0);
    b1, d := R0(big, block, 3, c, d, e, a, b1, b, r0);
    a, c := R0(big, block, 4, b1, c, d, e, a, b, r0);
    e, b1 := R0(big, block, 5, a, b1, c, d, e, b, r0);
    d, a := R0(big, block, 6, e, a, b1, c, d, b, r0);
    c, e := R0(big, block, 7, d, e, a, b1, c, b, r0);
    b1, d := R0(big, block, 8, c, d, e, a, b1, b, r0);
    a, c := R0(big, block, 9, b1, c, d, e, a, b, r0);
    q := Regs(a, b1, c, d, e);
  }

  method Steps1(big: bool, block: array<bv32>, r: Regs, ghost b: Block, ghost r0: Regs) returns (q: Regs)
    requires Ring(block[..], big, b, 10) && Steps(10, b, r0) == r
    modifies block
    ensures Ring(block[..], big, b, 20) && Steps(20, b, r0) == q
  {
    hide Ring, Steps;
    var a, b1, c, d, e := r.a, r.b, r.c, r.d, r.e;
    e, b1 := R0(big, block, 10, a, b1, c, d, e, b, r0);
    d, a := R0(big, block, 11, e, a, b1, c, d, b, r0);
    c, e := R0(big, block, 12, d, e, a, b1, c, b, r0);
    b1, d := R0(big, block, 13, c, d, e, a, b1, b, r0);
    a, c := R0(big, block, 14, b1, c, d, e, a, b, r0);
    e, b1 := R0(big, block, 15, a, b1, c, d, e, b, r0);
    d, a := R1(big, block, 16, e, a, b1, c, d, b, r0);
    c, e := R1(big, block, 17, d, e, a, b1, c, b, r0);
    b1, d := R1(big, block, 18, c, d, e, a, b1, b, r0);
    a, c := R1(big, block, 19, b1, c, d, e, a, b, r0);
    q := Regs(a, b1, c, d, e);
  }

  method Steps2(big: bool, block: array<bv32>, r: Regs, ghost b: Block, ghost r0: Regs) returns (q: Regs)
    requires Ring(block[..], big, b, 20) && Steps(20, b, r0) == r
    modifies block
    ensures Ring(block[..], big, b, 30) && Steps(30, b, r0) == q
  {
    hide Ring, Steps;
    var a, b1, c, d, e := r.a, r.b, r.c, r.d, r.e;
    e, b1 := R2(big, block, 20, a, b1, c, d, e, b, r0);
    d, a := R2(big, block, 21, e, a, b1, c, d, b, r0);
    c, e := R2(big, block, 22, d, e, a, b1, c, b, r0);
    b1, d := R2(big, block, 23, c, d, e, a, b1, b, r0);
    a, c := R2(big, block, 24, b1, c, d, e, a, b, r0);
    e, b1 := R2(big, block, 25, a, b1, c, d, e, b, r0);
    d, a := R2(big, block, 26, e, a, b1, c, d, b, r0);
    c, e := R2(big, block, 27, d, e, a, b1, c, b, r0);
    b1, d := R2(big, block, 28, c, d, e, a, b1, b, r0);
    a, c := R2(big, block, 29, b1, c, d, e, a, b, r0);
    q := Regs(a, b1, c, d, e);
  }

  method Steps3(big: bool, block: array<bv32>, r: Regs, ghost b: Block, ghost r0: Regs) returns (q: Regs)
    requires Ring(block[..], big, b, 30) && Steps(30, b, r0) == r
    modifies block
    ensures Ring(block[..], big, b, 40) && Steps(40, b, r0) == q
  {
    hide Ring, Steps;
    var a, b1, c, d, e := r.a, r.b, r.c, r.d, r.e;
    e, b1 := R2(big, block, 30, a, b1, c, d, e, b, r0);
    d, a := R2(big, block, 31, e, a, b1, c, d, b, r0);
    c, e := R2(big, block, 32, d, e, a, b1, c, b, r0);
    b1, d := R2(big, block, 33, c, d, e, a, b1, b, r0);
    a, c := R2(big, block, 34, b1, c, d, e, a, b, r0);
    e, b1 := R2(big, block, 35, a, b1, c, d, e, b, r0);
    d, a := R2(big, block, 36, e, a, b1, c, d, b, r0);
    c, e := R2(big, block, 37, d, e, a, b1, c, b, r0);
    b1, d := R2(big, block, 38, c, d, e, a, b1, b, r0);
    a, c := R2(big, block, 39, b1, c, d, e, a, b, r0);
    q := Regs(a, b1, c, d, e);
  }

  method Steps4(big: bool, block: array<bv32>, r: Regs, ghost b: Block, ghost r0: Regs) returns (q: Regs)
    requires Ring(block[..], big, b, 40) && Steps(40, b, r0) == r
    modifies block
    ensures Ring(block[..], big, b, 50) && Steps(50, b, r0) == q
  {
    hide Ring, Steps;
    var a, b1, c, d, e := r.a, r.b, r.c, r.d, r.e;
    e, b1 := R3(big, block, 40, a, b1, c, d, e, b, r0);
    d, a := R3(big, block, 41, e, a, b1, c, d, b, r0);
    c, e := R3(big, block, 42, d, e, a, b1, c, b, r0);
    b1, d := R3(big, block, 43, c, d, e, a, b1, b, r0);
    a, c := R3(big, block, 44, b1, c, d, e, a, b, r0);
    e, b1 := R3(big, block, 45, a, b1, c, d, e, b, r0);
    d, a := R3(big, block, 46, e, a, b1, c, d, b, r0);
    c, e := R3(big, block, 47, d, e, a, b1, c, b, r0);
    b1, d := R3(big, block, 48, c, d, e, a, b1, b, r0);
    a, c := R3(big, block, 49, b1, c, d, e, a, b, r0);
    q := Regs(a, b1, c, d, e);
  }

  method Steps5(big: bool, block: array<bv32>, r: Regs, ghost b: Block, ghost r0: Regs) returns (q: Regs)
    requires Ring(block[..], big, b, 50) && Steps(50, b, r0) == r
    modifies block
    ensures Ring(block[..], big, b, 60) && Steps(60, b, r0) == q
  {
    hide Ring, Steps;
    var a, b1, c, d, e := r.a, r.b, r.c, r.d, r.e;
    e, b1 := R3(big, block, 50, a, b1, c, d, e, b, r0);
    d, a := R3(big, block, 51, e, a, b1, c, d, b, r0);
    c, e := R3(big, block, 52, d, e, a, b1, c, b, r0);
    b1, d := R3(big, block, 53, c, d, e, a, b1, b, r0);
    a, c := R3(big, block, 54, b1, c, d, e, a, b, r0);
    e, b1 := R3(big, block, 55, a, b1, c, d, e, b, r0);
    d, a := R3(big, block, 56, e, a, b1, c, d, b, r0);
    c, e := R3(big, block, 57, d, e, a, b1, c, b, r0);
    b1, d := R3(big, block, 58, c, d, e, a, b1, b, r0);
    a, c := R3(big, block, 59, b1, c, d, e, a, b, r0);
    q := Regs(a, b1, c, d, e);
  }

  method Steps6(big: bool, block: array<bv32>, r: Regs, ghost b: Block, ghost r0: Regs) returns (q: Regs)
    requires Ring(block[..], big, b, 60) && Steps(60, b, r0) == r
    modifies block
    ensures Ring(block[..], big, b, 70) && Steps(70, b, r0) == q
  {
    hide Ring, Steps;
    var a, b1, c, d, e := r.a, r.b, r.c, r.d, r.e;
    e, b1 := R4(big, block, 60, a, b1, c, d, e, b, r0);
    d, a := R4(big, block, 61, e, a, b1, c, d, b, r0);
    c, e := R4(big, block, 62, d, e, a, b1, c, b, r0);
    b1, d := R4(big, block, 63, c, d, e, a, b1, b, r0);
    a, c := R4(big, block, 64, b1, c, d, e, a, b, r0);
    e, b1 := R4(big, block, 65, a, b1, c, d, e, b, r0);
    d, a := R4(big, block, 66, e, a, b1, c, d, b, r0);
    c, e := R4(big, block, 67, d, e, a, b1, c, b, r0);
    b1, d := R4(big, block, 68, c, d, e, a, b1, b, r0);
    a, c := R4(big, block, 69, b1, c, d, e, a, b, r0);
    q := Regs(a, b1, c, d, e);
  }

  method Steps7(big: bool, block: array<bv32>, r: Regs, ghost b: Block, ghost r0: Regs) returns (q: Regs)
    requires Ring(block[..], big, b, 70) && Steps(70, b, r0) == r
    modifies block
    ensures Ring(block[..], big, b, 80) && Steps(80, b, r0) == q
  {
    hide Ring, Steps;
    var a, b1, c, d, e := r.a, r.b, r.c, r.d, r.e;
    e, b1 := R4(big, block, 70, a, b1, c, d, e, b, r0);
    d, a := R4(big, block, 71, e, a, b1, c, d, b, r0);
    c, e := R4(big, block, 72, d, e, a, b1, c, b, r0);
    b1, d := R4(big, block, 73, c, d, e, a, b1, b, r0);
    a, c := R4(big, block, 74, b1, c, d, e, a, b, r0);
    e, b1 := R4(big, block, 75, a, b1, c, d, e, b, r0);
    d, a := R4(big, block, 76, e, a, b1, c, d, b, r0);
    c, e := R4(big, block, 77, d, e, a, b1, c, b, r0);
    b1, d := R4(big, block, 78, c, d, e, a, b1, b, r0);
    a, c := R4(big, block, 79, b1, c, d, e, a, b, r0);
    q := Regs(a, b1, c, d, e);
  }

  method Transform(big: bool, state: Regs, buffer: Block) returns (r: Regs)
    ensures r == Compress(state, buffer)
  {
    hide Steps, Schedule, RawWord;
    var block := new bv32[16](i requires 0 <= i < 16 => RawWord(big, buffer, i));
    StepsZero(buffer, state);
    r := Steps0(big, block, state, buffer, state);
    r := Steps1(big, block, r, buffer, state);
    r := Steps2(big, block, r, buffer, state);
    r := Steps3(big, block, r, buffer, state);
    r := Steps4(big, block, r, buffer, state);
    r := Steps5(big, block, r, buffer, state);
    r := Steps6(big, block, r, buffer, state);
    r := Steps7(big, block, r, buffer, state);
    r := AddRegs(state, r);
  }

  /** The loop over whole input blocks; its unsigned test cannot wrap under the bound. */
  method Blocks(big: bool, st: Regs, data: seq<u8>, at: nat, ghost m: seq<u8>) returns (r: Regs, i: nat)
    requires at <= |data| && |m| % 64 + |data| < 0x1_0000_0000
    requires at == 64 - |m| % 64 && st == Fold(Compress, INITIAL, m + data[..at])
    ensures i <= |data| < i + 64 && (|m| + i) % 64 == 0
    ensures r == Fold(Compress, INITIAL, m + data[..i])
  {
    hide *;
    r, i := st, at;
    while (i + 63) % 0x1_0000_0000 < |data|
      invariant i <= |data| && (|m| + i) % 64 == 0
      invariant r == Fold(Compress, INITIAL, m + data[..i])
      decreases |data| - i
    {
      FoldNext(Compress, INITIAL, m, data, i);
      r := Transform(big, r, data[i..i + 64]);
      i := i + 64;
    }
  }

  class Context {
    var state: Regs
    var count0: u32
    var count1: u32
    const buffer: array<u8>
    const bigEndian: bool

    constructor Init(bigEndian: bool)
      ensures Represents(state, count0, count1, buffer[..], []) && fresh(buffer)
    {
      state, count0, count1 := INITIAL, 0, 0;
      buffer := new u8[64];
      this.bigEndian := bigEndian;
    }

    method Update(data: seq<u8>, ghost m: seq<u8>)
      requires Represents(state, count0, count1, buffer[..], m)
      requires |m| % 64 + |data| < 0x1_0000_0000
      modifies this, buffer
      ensures Represents(state, count0, count1, buffer[..], m + data)
    {
      hide *;
      Open(state, count0, count1, buffer[..], m);
      var j := count0 / 8 % 64;
      count0, count1 := MongooseMd5.AddBits(count0, count1, |data|, |m|);
      var i := 0;
      FoldWhole(Compress, INITIAL, m);
      if (j + |data|) % 0x1_0000_0000 > 63 {
        i := 64 - j;
        MemCopy(buffer, j, data[..i]);
        FillBlock(Compress, INITIAL, m, data[..i], buffer[..]);
        state := Transform(bigEndian, state, buffer[..]);
        state, i := Blocks(bigEndian, state, data, i, m);
        j := 0;
        LeftoverAt(Compress, INITIAL, m, data, i);
      } else {
        LeftoverShort(Compress, INITIAL, m, data);
      }
      MemCopy(buffer, j, data[i..]);
      Close(state, count0, count1, buffer[..], m + data);
    }

    method Final(ghost m: seq<u8>) returns (digest: seq<u8>)
      requires Represents(state, count0, count1, buffer[..], m)
      modifies this, buffer
      ensures digest == Sha1(m)
      ensures state == Regs(0, 0, 0, 0, 0) && count0 == count1 == 0 && buffer[..] == Zeros(64)
    {
      hide *;
      Open(state, count0, count1, buffer[..], m);
      var finalCount := Be32(count1) + Be32(count0);
      CountOctets(count0, count1, |m|);
      Update([0x80], m);
      ghost var padded := m + [0x80];
      ghost var k := 0;
      ZerosEmpty(padded);
      Open(state, count0, count1, buffer[..], padded);
      ZeroLoop(|m|, 0);
      while count0 / 8 % 64 * 8 != 448
        invariant Represents(state, count0, count1, buffer[..], padded + Zeros(k))
        invariant count0 / 8 % 64 == (|m| + 1 + k) % 64 && k <= ZeroCount(|m|)
        decreases ZeroCount(|m|) - k
      {
        ZeroLoop(|m|, k);
        Update([0], padded + Zeros(k));
        ZerosNext(padded, k);
        k := k + 1;
        Open(state, count0, count1, buffer[..], padded + Zeros(k));
      }
      ZeroLoop(|m|, k);
      Update(finalCount, padded + Zeros(k));
      PadIs(m, LengthField(|m|));
      Open(state, count0, count1, buffer[..], padded + Zeros(k) + finalCount);
      DigestOf(m);
      digest := StoreDigest(state);
      state := Regs(0, 0, 0, 0, 0);
      count0, count1 := 0, 0;
      Fill(buffer, 0, 64);
      assert buffer[..] == Zeros(64);
    }
  }

  /** A whole streaming run over the given chunks. */
  method Digest(bigEndian: bool, chunks: seq<seq<u8>>) returns (digest: seq<u8>)
    requires forall c :: c in chunks ==> |c| <= 0xffff_ffc0
    ensures digest == Sha1(Concat(chunks))
  {
    hide Compress, Represents, Sha1;
    var context := new Context.Init(bigEndian);
    var i := 0;
    assert chunks[..0] == [];
    while i < |chunks|
      invariant 0 <= i <= |chunks| && fresh(context) && fresh(context.buffer)
      invariant Represents(context.state, context.count0, context.count1, context.buffer[..], Concat(chunks[..i]))
    {
      context.Update(chunks[i], Concat(chunks[..i]));
      assert chunks[..i + 1] == chunks[..i] + [chunks[i]];
      ConcatSnoc(chunks[..i], chunks[i]);
      i := i + 1;
    }
    assert chunks[..i] == chunks;
    digest := context.Final(Concat(chunks));
  }

  /** The byte-at-a-time loop stops at the first length that is 56 modulo 64. */
  lemma ZeroLoop(n: nat, k: nat)
    requires k <= ZeroCount(n)
    ensures (n + 1 + k) % 64 == 56 <==> k == ZeroCount(n)
    ensures ZeroCount(n) < 64
  {
  }

  lemma ZerosEmpty(m: seq<u8>)
    ensures m + Zeros(0) == m
  {
  }

  lemma ZerosNext(m: seq<u8>, k: nat)
    ensures m + Zeros(k) + [0] == m + Zeros(k + 1)
  {
  }

  lemma PadIs(m: seq<u8>, lengthField: seq<u8>)
    ensures Pad(m, lengthField) == m + [0x80] + Zeros(ZeroCount(|m|)) + lengthField
  {
  }

  lemma OutputAt(r: Regs, k: nat)
    requires k < 20
    ensures Output(r)[k] == WordOctet([r.a, r.b, r.c, r.d, r.e][k / 4], 3 - k % 4)
  {
    hide BeOctets, WordOctet;
    if k < 4 {
      BeOctetsAt(r.a, k);
    } else if k < 8 {
      BeOctetsAt(r.b, k - 4);
    } else if k < 12 {
      BeOctetsAt(r.c, k - 8);
    } else if k < 16 {
      BeOctetsAt(r.d, k - 12);
    } else {
      BeOctetsAt(r.e, k - 16);
    }
  }

  lemma BeOctetsAt(w: bv32, k: nat)
    requires k < 4
    ensures BeOctets(w)[k] == WordOctet(w, 3 - k)
  {
    hide WordOctet;
  }

  method StoreDigest(state: Regs) returns (digest: seq<u8>)
    ensures digest == Output(state)
  {
    hide WordOctet, BeOctets, Output;
    digest := [];
    for i := 0 to 20
      invariant digest == Output(state)[..i]
    {
      OutputAt(state, i);
      digest := digest + [WordOctet([state.a, state.b, state.c, state.d, state.e][i / 4], 3 - i % 4)];
    }
  }
}
