/** Octets, 32-bit counters and the byte orders used across the project. */
module Bytes {
  type u8 = x: int | 0 <= x < 0x100
  type u16 = x: int | 0 <= x < 0x1_0000
  type u32 = x: int | 0 <= x < 0x1_0000_0000

  /** The k-th octet of w, counted from the least significant. */
  function Octet(w: u32, k: nat): u8
    requires k < 4
  {
    if k == 0 then w % 0x100
    else if k == 1 then w / 0x100 % 0x100
    else if k == 2 then w / 0x1_0000 % 0x100
    else w / 0x100_0000
  }

  function Le32(w: u32): (s: seq<u8>)
    ensures |s| == 4
  {
    [Octet(w, 0), Octet(w, 1), Octet(w, 2), Octet(w, 3)]
  }

  function Be32(w: u32): (s: seq<u8>)
    ensures |s| == 4
  {
    [Octet(w, 3), Octet(w, 2), Octet(w, 1), Octet(w, 0)]
  }

  function Be16(w: u16): (s: seq<u8>)
    ensures |s| == 2
  {
    [w / 0x100, w % 0x100]
  }

  /** A word as it lies in the memory of a host of the given byte order. */
  function NativeStore(big: bool, w: u32): (s: seq<u8>)
    ensures |s| == 4
  {
    if big then Be32(w) else Le32(w)
  }

  function NativeStore16(big: bool, w: u16): (s: seq<u8>)
    ensures |s| == 2
  {
    if big then Be16(w) else [w % 0x100, w / 0x100]
  }

  /** tolower. */
  function Lower(c: u8): u8 {
    if 65 <= c <= 90 then c + 32 else c
  }

  /** The same character, or the two cases of one letter. */
  predicate SameLetter(x: u8, y: u8) {
    x == y || (65 <= x <= 90 && y == x + 32) || (65 <= y <= 90 && x == y + 32)
  }

  predicate SameText(a: seq<u8>, b: seq<u8>) {
    |a| == |b| && forall i :: 0 <= i < |a| ==> SameLetter(a[i], b[i])
  }

  /** 0 to 9, then a to f. */
  function HexDigit(n: nat): (c: u8)
    requires n < 16
    ensures c == "0123456789abcdef"[n] as int
  {
    if n < 10 then 48 + n else 87 + n
  }

  /** The number whose octets, least significant first, are b0 b1 b2 b3. */
  function Num32(b0: u8, b1: u8, b2: u8, b3: u8): u32 {
    b0 + 0x100 * b1 + 0x1_0000 * b2 + 0x100_0000 * b3
  }

  function Num16(lo: u8, hi: u8): u16 {
    lo + 0x100 * hi
  }

  lemma OctetsOfNum32(b0: u8, b1: u8, b2: u8, b3: u8)
    ensures Le32(Num32(b0, b1, b2, b3)) == [b0, b1, b2, b3]
    ensures Be32(Num32(b0, b1, b2, b3)) == [b3, b2, b1, b0]
  {
    var w, q1, q2 := Num32(b0, b1, b2, b3), b1 + 0x100 * b2 + 0x1_0000 * b3, b2 + 0x100 * b3;
    LowOctet(b0, q1);
    LowOctet(b1, q2);
    LowOctet(b2, b3);
    Quotients(w);
  }

  lemma LowOctet(b: u8, q: nat)
    ensures (b + 0x100 * q) / 0x100 == q && (b + 0x100 * q) % 0x100 == b
  {
  }

  lemma Quotients(w: nat)
    ensures w / 0x1_0000 == w / 0x100 / 0x100 && w / 0x100_0000 == w / 0x100 / 0x100 / 0x100
  {
  }

  lemma Num32OfOctets(w: u32)
    ensures Num32(Octet(w, 0), Octet(w, 1), Octet(w, 2), Octet(w, 3)) == w
  {
    var q := w / 0x100;
    var r := w / 0x1_0000;
    assert q / 0x100 == r;
    assert r / 0x100 == w / 0x100_0000;
    assert w == w % 0x100 + 0x100 * q;
    assert q == q % 0x100 + 0x100 * r;
    assert r == r % 0x100 + 0x100 * (r / 0x100);
  }

  function Zeros(n: nat): (s: seq<u8>)
    ensures |s| == n
    ensures forall i :: 0 <= i < n ==> s[i] == 0
  {
    seq(n, i => 0)
  }

  /** The pieces of a chopped input put back together. */
  function Concat<T>(parts: seq<seq<T>>): seq<T> {
    if parts == [] then [] else parts[0] + Concat(parts[1..])
  }

  lemma {:induction false} ConcatSnoc<T>(parts: seq<seq<T>>, last: seq<T>)
    ensures Concat(parts + [last]) == Concat(parts) + last
  {
    if parts == [] {
      assert [last][1..] == [];
    } else {
      ConcatSnoc(parts[1..], last);
      assert (parts + [last])[1..] == parts[1..] + [last];
    }
  }

  lemma {:induction false} ConcatUpTo<T>(parts: seq<seq<T>>, i: nat)
    requires i <= |parts|
    ensures Concat(parts) == Concat(parts[..i]) + Concat(parts[i..])
  {
    if i == 0 {
      assert parts[0..] == parts;
    } else {
      ConcatUpTo(parts[1..], i - 1);
      assert parts[1..][..i - 1] == parts[..i][1..] && parts[1..][i - 1..] == parts[i..];
    }
  }
}
