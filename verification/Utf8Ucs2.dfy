/**
 UTF-8 to UCS-2 and back, for the basic multilingual plane, with the byte swaps that put
 the units in network order on a little-endian host.
 */
module Utf8Ucs2 {
  import opened Bytes
  import opened Options

  datatype Char = Char(unit: u16, octets: nat)

  // ---- One character at a time ----

  /** Strings end with an implicit zero. */
  function ByteAt(s: seq<u8>, i: nat): u8 {
    if i < |s| then s[i] else 0
  }

  /** The character at position i; continuation octets are masked, not checked. */
  function DecodeChar(s: seq<u8>, i: nat): (r: Option<Char>)
    ensures r.Some? ==> 1 <= r.value.octets && i + r.value.octets <= |s|
  {
    var b0, b1, b2 := ByteAt(s, i), ByteAt(s, i + 1), ByteAt(s, i + 2);
    if b0 == 0 then None
    else if b0 < 0x80 then Some(Char(b0, 1))
    else if b0 >= 0xE0 then
      if b1 == 0 || b2 == 0 then None else Some(Char(Three(b0, b1, b2), 3))
    else if b0 >= 0xC0 then
      if b1 == 0 then None else Some(Char(Two(b0, b1), 2))
    else None
  }

  function Two(b0: u8, b1: u8): u16 {
    b0 % 32 * 64 + b1 % 64
  }

  function Three(b0: u8, b1: u8, b2: u8): u16 {
    b0 % 16 * 4096 + b1 % 64 * 64 + b2 % 64
  }

  /** Surrogates and 0xFFFF yield nothing. */
  function EncodeChar(u: u16): (s: seq<u8>)
    ensures |s| <= 3
  {
    if u < 0x80 then [u]
    else if u < 0x800 then [0xC0 + u / 64, 0x80 + u % 64]
    else if u == 0xFFFF || 0xD800 <= u <= 0xDFFF then []
    else [0xE0 + u / 4096, 0x80 + u / 64 % 64, 0x80 + u % 64]
  }

  /** The scalars that have a form in both encodings. */
  predicate Scalar(u: u16) {
    0 < u < 0xFFFF && !(0xD800 <= u <= 0xDFFF)
  }

  predicate Scalars(us: seq<u16>) {
    forall i :: 0 <= i < |us| ==> Scalar(us[i])
  }

  /** The ABNF of section 4 of RFC 3629, up to three octets, without U+0000 and U+FFFF. */
  predicate WellFormedChar(s: seq<u8>) {
    || (|s| == 1 && 1 <= s[0] <= 0x7F)
    || (|s| == 2 && 0xC2 <= s[0] <= 0xDF && IsTail(s[1]))
    || (|s| == 3 && s[0] == 0xE0 && 0xA0 <= s[1] <= 0xBF && IsTail(s[2]))
    || (|s| == 3 && 0xE1 <= s[0] <= 0xEC && IsTail(s[1]) && IsTail(s[2]))
    || (|s| == 3 && s[0] == 0xED && 0x80 <= s[1] <= 0x9F && IsTail(s[2]))
    || (|s| == 3 && 0xEE <= s[0] <= 0xEF && IsTail(s[1]) && IsTail(s[2]) && s != [0xEF, 0xBF, 0xBF])
  }

  predicate IsTail(b: u8) {
    0x80 <= b <= 0xBF
  }

  /** A string of well-formed characters. */
  ghost predicate WellFormed(s: seq<u8>)
    decreases |s|
  {
    s == [] || exists n: nat :: 1 <= n <= 3 && n <= |s| && WellFormedChar(s[..n]) && WellFormed(s[n..])
  }

  /** What the decoder makes of a first octet and the ones after it. */
  lemma DecodeFront(c: seq<u8>, t: seq<u8>)
    requires c != []
    ensures |c| == 1 && 1 <= c[0] < 0x80 ==> DecodeChar(c + t, 0) == Some(Char(c[0], 1))
    ensures |c| == 2 && 0xC0 <= c[0] < 0xE0 && c[1] != 0 ==> DecodeChar(c + t, 0) == Some(Char(Two(c[0], c[1]), 2))
    ensures |c| == 3 && 0xE0 <= c[0] && c[1] != 0 && c[2] != 0
            ==> DecodeChar(c + t, 0) == Some(Char(Three(c[0], c[1], c[2]), 3))
  {
    hide Two, Three;
    assert forall i :: 0 <= i < |c| ==> ByteAt(c + t, i) == c[i];
  }

  lemma CharRoundTrip(u: u16, t: seq<u8>)
    requires Scalar(u)
    ensures DecodeChar(EncodeChar(u) + t, 0) == Some(Char(u, |EncodeChar(u)|))
  {
    hide Two, Three, DecodeChar;
    DecodeFront(EncodeChar(u), t);
    if 0x80 <= u < 0x800 {
      TwoOf(u);
    } else if 0x800 <= u {
      ThreeOf(u);
    }
  }

  lemma EncodedIsWellFormed(u: u16)
    requires Scalar(u)
    ensures WellFormedChar(EncodeChar(u))
  {
    hide Two, Three;
    if 0x80 <= u < 0x800 {
      TwoOf(u);
    } else if 0x800 <= u {
      ThreeOf(u);
    }
  }

  lemma TwoOf(u: u16)
    requires 0x80 <= u < 0x800
    ensures Two(0xC0 + u / 64, 0x80 + u % 64) == u
    ensures 0xC2 <= 0xC0 + u / 64 <= 0xDF
  {
  }

  lemma ThreeOf(u: u16)
    requires 0x800 <= u
    ensures Three(0xE0 + u / 4096, 0x80 + u / 64 % 64, 0x80 + u % 64) == u
    ensures 0xE0 + u / 4096 <= 0xEF
  {
    var q := u / 64;
    assert q / 64 == u / 4096;
    assert u == 64 * q + u % 64 && q == 64 * (q / 64) + q % 64;
  }

  /** The bits of the octets that are left when lead and continuation marks are taken off (section 3 of RFC 3629). */
  function Payload(c: seq<u8>): int
    requires 1 <= |c| <= 3
  {
    if |c| == 1 then c[0]
    else if |c| == 2 then 0x40 * (c[0] as int - 0xC0) + (c[1] as int - 0x80)
    else 0x1000 * (c[0] as int - 0xE0) + 0x40 * (c[1] as int - 0x80) + (c[2] as int - 0x80)
  }

  lemma PayloadTwo(b0: u8, b1: u8)
    requires 0xC0 <= b0 <= 0xDF && IsTail(b1)
    ensures Two(b0, b1) as int == Payload([b0, b1])
  {
    var x, y := b0 as int - 0xC0, b1 as int - 0x80;
    assert b0 % 32 == x && b1 % 64 == y;
  }

  lemma PayloadThree(b0: u8, b1: u8, b2: u8)
    requires 0xE0 <= b0 <= 0xEF && IsTail(b1) && IsTail(b2)
    ensures Three(b0, b1, b2) as int == Payload([b0, b1, b2])
  {
    var x, y, z := b0 as int - 0xE0, b1 as int - 0x80, b2 as int - 0x80;
    assert b0 % 16 == x && b1 % 64 == y && b2 % 64 == z;
  }

  lemma FormRoundTrip(c: seq<u8>, t: seq<u8>)
    requires WellFormedChar(c)
    ensures var r := DecodeChar(c + t, 0);
            r.Some? && r.value.octets == |c| && Scalar(r.value.unit) && EncodeChar(r.value.unit) == c
    ensures DecodeChar(c + t, 0).value.unit as int == Payload(c)
  {
    hide Two, Three, EncodeChar, DecodeChar;
    DecodeFront(c, t);
    if |c| == 1 {
      EncodeOne(c[0]);
    } else if |c| == 2 {
      FromTwo(c[0], c[1]);
      PayloadTwo(c[0], c[1]);
    } else {
      assert c == [c[0], c[1], c[2]];
      FromThree(c[0], c[1], c[2]);
      PayloadThree(c[0], c[1], c[2]);
    }
  }

  lemma EncodeOne(b: u8)
    requires 1 <= b < 0x80
    ensures Scalar(b) && EncodeChar(b) == [b]
  {
  }

  lemma FromTwo(b0: u8, b1: u8)
    requires 0xC2 <= b0 <= 0xDF && IsTail(b1)
    ensures Scalar(Two(b0, b1)) && EncodeChar(Two(b0, b1)) == [b0, b1]
  {
    var x, y: nat := b0 - 0xC0, b1 - 0x80;
    assert b0 % 32 == x && b1 % 64 == y;
    Digits(x, y);
  }

  lemma Digits(x: nat, y: nat)
    requires y < 64
    ensures (x * 64 + y) / 64 == x && (x * 64 + y) % 64 == y
  {
  }

  lemma FromThree(b0: u8, b1: u8, b2: u8)
    requires WellFormedChar([b0, b1, b2])
    ensures Scalar(Three(b0, b1, b2)) && EncodeChar(Three(b0, b1, b2)) == [b0, b1, b2]
  {
    hide EncodeChar, Scalar;
    var x, y, z: nat := b0 - 0xE0, b1 - 0x80, b2 - 0x80;
    assert b0 % 16 == x && b1 % 64 == y && b2 % 64 == z;
    ThreeDigits(Three(b0, b1, b2), x, y, z);
    EncodeThree(Three(b0, b1, b2));
  }

  lemma EncodeThree(u: u16)
    requires 0x800 <= u < 0xFFFF && !(0xD800 <= u <= 0xDFFF)
    ensures Scalar(u) && EncodeChar(u) == [0xE0 + u / 4096, 0x80 + u / 64 % 64, 0x80 + u % 64]
  {
  }

  lemma ThreeDigits(u: u16, x: nat, y: nat, z: nat)
    requires y < 64 && z < 64 && u == x * 4096 + y * 64 + z
    ensures u / 4096 == x && u / 64 % 64 == y && u % 64 == z
    ensures u == 0xFFFF ==> x == 15 && y == 63 && z == 63
    ensures 0x800 <= u <==> 32 <= 64 * x + y
    ensures 0xD800 <= u <= 0xDFFF <==> x == 13 && 32 <= y
  {
    Digits(x * 64 + y, z);
    Digits(x, y);
    assert u == (x * 64 + y) * 64 + z;
  }

  // ---- The loops ----

  /** One turn of the loop: an undecodable character leaves the position where it is. */
  function Next(s: seq<u8>, p: nat): (r: nat)
    requires p <= |s|
    ensures p <= r <= |s|
  {
    var c := DecodeChar(s, p);
    if c.Some? then p + c.value.octets else p
  }

  /** From p on, s is nothing but decodable characters. */
  ghost predicate Decodes(s: seq<u8>, p: nat)
    requires p <= |s|
    decreases |s| - p
  {
    p == |s| || (DecodeChar(s, p).Some? && Decodes(s, Next(s, p)))
  }

  function Position(s: seq<u8>, turns: nat): (p: nat)
    ensures p <= |s|
  {
    if turns == 0 then 0 else Next(s, Position(s, turns - 1))
  }

  /** The loop reaches the end of the string exactly when every character decodes. */
  lemma HaltsIff(s: seq<u8>)
    ensures (exists n: nat :: Position(s, n) == |s|) <==> Decodes(s, 0)
  {
    if Decodes(s, 0) {
      var n := TurnsToEnd(s, 0, 0);
    }
    if n: nat :| Position(s, n) == |s| {
      DecodesBack(s, n);
    }
  }

  lemma {:induction false} TurnsToEnd(s: seq<u8>, p: nat, turns: nat) returns (n: nat)
    requires p <= |s| && Position(s, turns) == p && Decodes(s, p)
    ensures Position(s, n) == |s|
    decreases |s| - p
  {
    hide DecodeChar;
    if p == |s| {
      n := turns;
    } else {
      n := TurnsToEnd(s, Next(s, p), turns + 1);
    }
  }

  lemma {:induction false} DecodesBack(s: seq<u8>, n: nat)
    requires Decodes(s, Position(s, n))
    ensures Decodes(s, 0)
  {
    hide DecodeChar;
    if n > 0 {
      var p := Position(s, n - 1);
      if Next(s, p) != p {
        assert Decodes(s, p);
      }
      DecodesBack(s, n - 1);
    }
  }

  /** A first octet with as many others behind it as it asks for; any but zero will do. */
  predicate Piece(c: seq<u8>) {
    || (|c| == 1 && 1 <= c[0] <= 0x7F)
    || (|c| == 2 && 0xC0 <= c[0] <= 0xDF && c[1] != 0)
    || (|c| == 3 && 0xE0 <= c[0] && c[1] != 0 && c[2] != 0)
  }

  ghost predicate InPieces(s: seq<u8>) {
    exists ps: seq<seq<u8>> :: (forall c :: c in ps ==> Piece(c)) && Concat(ps) == s
  }

  lemma PieceAt(s: seq<u8>, p: nat, n: nat)
    requires p < |s|
    ensures DecodeChar(s, p).Some? && DecodeChar(s, p).value.octets == n <==> p + n <= |s| && Piece(s[p..p + n])
  {
    hide Two, Three;
  }

  lemma {:induction false} PiecesOf(s: seq<u8>, p: nat) returns (ps: seq<seq<u8>>)
    requires p <= |s| && Decodes(s, p)
    ensures (forall c :: c in ps ==> Piece(c)) && Concat(ps) == s[p..]
    decreases |s| - p
  {
    hide DecodeChar, Piece;
    ps := [];
    if p < |s| {
      var n := DecodeChar(s, p).value.octets;
      PieceAt(s, p, n);
      var more := PiecesOf(s, p + n);
      ps := [s[p..p + n]] + more;
      assert ps[1..] == more && s[p..] == s[p..p + n] + s[p + n..];
    }
  }

  lemma {:induction false} PiecesDecode(s: seq<u8>, p: nat, ps: seq<seq<u8>>)
    requires p <= |s| && s[p..] == Concat(ps) && forall c :: c in ps ==> Piece(c)
    ensures Decodes(s, p)
    decreases |ps|
  {
    hide DecodeChar;
    if ps != [] {
      var n := |ps[0]|;
      assert Piece(ps[0]);
      assert s[p..p + n] == s[p..][..n] == ps[0];
      assert s[p + n..] == s[p..][n..] == Concat(ps[1..]);
      PieceAt(s, p, n);
      PiecesDecode(s, p + n, ps[1..]);
    }
  }

  /** Which strings decode, by their lead octets and what stands behind each. */
  lemma DecodesIff(s: seq<u8>)
    ensures Decodes(s, 0) <==> InPieces(s)
  {
    hide Piece;
    assert s[0..] == s;
    if Decodes(s, 0) {
      var ps := PiecesOf(s, 0);
    }
    if InPieces(s) {
      var ps: seq<seq<u8>> :| (forall c :: c in ps ==> Piece(c)) && Concat(ps) == s;
      PiecesDecode(s, 0, ps);
    }
  }

  lemma TailAlone()
    ensures DecodeChar([0x80], 0) == None
  {
    assert ByteAt([0x80], 0) == 0x80;
  }

  /** A continuation octet on its own: the loop stays at its start for ever. */
  lemma {:induction false} StuckOnTail(turns: nat)
    ensures Position([0x80], turns) == 0 && !InPieces([0x80])
  {
    TailAlone();
    hide DecodeChar;
    DecodesIff([0x80]);
    if turns > 0 {
      StuckOnTail(turns - 1);
    }
  }

  function Units(s: seq<u8>, p: nat): seq<u16>
    requires p <= |s| && Decodes(s, p)
    decreases |s| - p
  {
    if p == |s| then [] else [DecodeChar(s, p).value.unit] + Units(s, Next(s, p))
  }

  lemma {:induction false} UnitsCount(s: seq<u8>, p: nat)
    requires p <= |s| && Decodes(s, p)
    ensures |Units(s, p)| <= |s| - p
    decreases |s| - p
  {
    if p < |s| {
      UnitsCount(s, Next(s, p));
    }
  }

  /** Collects the units; on other strings the source's loop never ends. */
  method ConvertUtf8(s: seq<u8>) returns (ucs2: seq<u16>)
    requires 0 !in s && Decodes(s, 0)
    ensures ucs2 == Units(s, 0)
  {
    hide DecodeChar;
    ucs2 := [];
    var p1: nat := 0;
    while p1 < |s|
      invariant p1 <= |s| && Decodes(s, p1)
      invariant ucs2 + Units(s, p1) == Units(s, 0)
      decreases |s| - p1
    {
      var c := DecodeChar(s, p1);
      if c.Some? {
        ucs2 := ucs2 + [c.value.unit];
      }
      var p2 := Next(s, p1);
      if p2 == |s| {
        break;
      }
      p1 := p2;
    }
  }

  function Utf8(us: seq<u16>): seq<u8> {
    if us == [] then [] else EncodeChar(us[0]) + Utf8(us[1..])
  }

  /** The constructor of a string from a char pointer takes what is before the first zero. */
  function UpToZero(s: seq<u8>): (r: seq<u8>)
    ensures 0 !in r
  {
    if s == [] || s[0] == 0 then [] else [s[0]] + UpToZero(s[1..])
  }

  lemma {:induction false} UpToZeroWhole(s: seq<u8>, t: seq<u8>)
    requires 0 !in s
    ensures UpToZero(s + [0] + t) == s
  {
    if s != [] {
      assert (s + [0] + t)[1..] == s[1..] + [0] + t;
      UpToZeroWhole(s[1..], t);
    }
  }

  // ---- Round trips ----

  lemma {:induction false} DecodesAfter(a: seq<u8>, t: seq<u8>, i: nat)
    requires i <= |t| && Decodes(t, i)
    ensures Decodes(a + t, |a| + i) && Units(a + t, |a| + i) == Units(t, i)
    decreases |t| - i
  {
    ShiftedChar(a, t, i);
    hide DecodeChar;
    if i < |t| {
      DecodesAfter(a, t, Next(t, i));
    }
  }

  lemma ShiftedChar(a: seq<u8>, t: seq<u8>, i: nat)
    requires i <= |t|
    ensures DecodeChar(a + t, |a| + i) == DecodeChar(t, i)
  {
    assert forall k :: i <= k <= i + 2 ==> ByteAt(a + t, |a| + k) == ByteAt(t, k);
  }

  lemma UnitsCons(c: seq<u8>, t: seq<u8>, u: u16)
    requires c != [] && DecodeChar(c + t, 0) == Some(Char(u, |c|)) && Decodes(t, 0)
    ensures Decodes(c + t, 0) && Units(c + t, 0) == [u] + Units(t, 0)
  {
    hide DecodeChar;
    DecodesAfter(c, t, 0);
    assert Next(c + t, 0) == |c|;
  }

  lemma Utf8Cons(u: u16, us: seq<u16>)
    ensures Utf8([u] + us) == EncodeChar(u) + Utf8(us)
    ensures Scalar(u) && Scalars(us) ==> Scalars([u] + us)
  {
    hide EncodeChar;
    assert ([u] + us)[1..] == us;
  }

  lemma WellFormedCons(c: seq<u8>, t: seq<u8>)
    requires WellFormedChar(c) && WellFormed(t)
    ensures WellFormed(c + t)
  {
    var n: nat := |c|;
    assert (c + t)[..n] == c && (c + t)[n..] == t;
  }

  lemma WellFormedSplit(s: seq<u8>) returns (c: seq<u8>, t: seq<u8>)
    requires WellFormed(s) && s != []
    ensures s == c + t && c != [] && WellFormedChar(c) && WellFormed(t)
  {
    var n: nat :| 1 <= n <= 3 && n <= |s| && WellFormedChar(s[..n]) && WellFormed(s[n..]);
    c, t := s[..n], s[n..];
  }

  lemma NoUnits()
    ensures Decodes([], 0) && Units([], 0) == [] && Utf8([]) == [] && WellFormed([]) && Scalars([])
  {
  }

  /** The units come back from their UTF-8 form, and the loop runs through it. */
  lemma {:induction false} UnitsOfUtf8(us: seq<u16>)
    requires Scalars(us)
    ensures Decodes(Utf8(us), 0) && Units(Utf8(us), 0) == us
    ensures WellFormed(Utf8(us))
  {
    hide DecodeChar, WellFormedChar, EncodeChar, Scalar, Decodes, Units, WellFormed, Utf8;
    if us == [] {
      NoUnits();
    } else {
      var c, t := EncodeChar(us[0]), Utf8(us[1..]);
      assert us == [us[0]] + us[1..];
      Utf8Cons(us[0], us[1..]);
      CharRoundTrip(us[0], t);
      EncodedIsWellFormed(us[0]);
      UnitsOfUtf8(us[1..]);
      NotEmpty(us[0]);
      UnitsCons(c, t, us[0]);
      WellFormedCons(c, t);
    }
  }

  lemma NotEmpty(u: u16)
    requires Scalar(u)
    ensures EncodeChar(u) != []
  {
  }

  /** A well-formed string decodes to scalars, and their UTF-8 form is that string. */
  lemma {:induction false} Utf8OfUnits(s: seq<u8>)
    requires WellFormed(s)
    ensures Decodes(s, 0) && Scalars(Units(s, 0)) && Utf8(Units(s, 0)) == s
    decreases |s|
  {
    hide DecodeChar, WellFormedChar, EncodeChar, Scalar, Scalars, Decodes, Units, WellFormed, Utf8;
    NoUnits();
    if s != [] {
      var c, t := WellFormedSplit(s);
      FormRoundTrip(c, t);
      Utf8OfUnits(t);
      var u := DecodeChar(c + t, 0).value.unit;
      UnitsCons(c, t, u);
      Utf8Cons(u, Units(t, 0));
    }
  }

  lemma {:induction false} Utf8HasNoZero(us: seq<u16>)
    requires Scalars(us)
    ensures 0 !in Utf8(us)
  {
    if us != [] {
      Utf8HasNoZero(us[1..]);
    }
  }

  lemma {:induction false} Utf8Join(a: seq<u16>, b: seq<u16>)
    ensures Utf8(a + b) == Utf8(a) + Utf8(b)
  {
    hide EncodeChar;
    if a == [] {
      assert a + b == b;
    } else {
      assert (a + b)[1..] == a[1..] + b;
      Utf8Join(a[1..], b);
    }
  }

  // ---- Byte order ----

  /** change_endian_1 and the two stores: the octets of each unit change places. */
  function Swapped(big: bool, u: u16): (s: seq<u8>)
    ensures |s| == 2
  {
    [NativeStore16(big, u)[1], NativeStore16(big, u)[0]]
  }

  /** change_endian_2: the unit whose high octet comes first in memory. */
  function Load(m: seq<u8>, i: nat): u16
    requires 2 * i + 1 < |m|
  {
    Num16(m[2 * i + 1], m[2 * i])
  }

  function SwappedAll(big: bool, us: seq<u16>): (m: seq<u8>)
    ensures |m| == 2 * |us|
  {
    if us == [] then [] else Swapped(big, us[0]) + SwappedAll(big, us[1..])
  }

  /** Storing and loading cancel on a little-endian host; on another, only for equal octets. */
  lemma SwapsCancel(big: bool, u: u16)
    ensures Load(Swapped(big, u), 0) == u <==> !big || u / 0x100 == u % 0x100
  {
  }

  lemma {:induction false} LoadSwapped(us: seq<u16>, i: nat)
    requires i < |us|
    ensures Load(SwappedAll(false, us), i) == us[i]
  {
    SwapsCancel(false, us[0]);
    if i > 0 {
      LoadSwapped(us[1..], i - 1);
    }
  }

  /** On a little-endian host the octets of each unit end up in network order; they are read in that order on any host. */
  lemma {:induction false} InNetworkOrder(us: seq<u16>, i: nat, m: seq<u8>)
    requires i < |us|
    ensures SwappedAll(false, us)[2 * i] == us[i] / 0x100 && SwappedAll(false, us)[2 * i + 1] == us[i] % 0x100
    ensures 2 * i + 1 < |m| ==> Load(m, i) == 0x100 * (m[2 * i] as int) + m[2 * i + 1] as int
  {
    if i > 0 {
      InNetworkOrder(us[1..], i - 1, []);
    }
  }

  function LoadAll(m: seq<u8>, start: nat, count: nat): (us: seq<u16>)
    requires 2 * (start + count) <= |m|
    ensures |us| == count
  {
    seq<u16>(count, i requires 0 <= i < count => Load(m, start + i))
  }

  /** smpp_datacoding_convert_utf8_to_ucs2. */
  method Utf8ToUcs2(big: bool, s: seq<u8>, bytes: array<u8>) returns (length: nat)
    requires 0 !in s && Decodes(s, 0) && 2 * |Units(s, 0)| <= bytes.Length
    modifies bytes
    ensures length == 2 * |Units(s, 0)|
    ensures bytes[..] == SwappedAll(big, Units(s, 0)) + old(bytes[length..])
  {
    hide *;
    var units := ConvertUtf8(s);
    var i: nat := 0;
    ghost var was := bytes[..];
    FilledEnds(big, units, was);
    while i < |units|
      invariant i <= |units|
      invariant bytes[..] == Filled(big, units, i, was)
    {
      FilledNext(big, units, i, was);
      var c1, c2 := NativeStore16(big, units[i])[0], NativeStore16(big, units[i])[1];
      bytes[2 * i] := c2;
      bytes[2 * i + 1] := c1;
      i := i + 1;
    }
    length := |units| * 2;
  }

  /** The memory after the first i units are stored over its front. */
  function Filled(big: bool, us: seq<u16>, i: nat, was: seq<u8>): (m: seq<u8>)
    requires i <= |us| && 2 * |us| <= |was|
    ensures |m| == |was|
  {
    SwappedAll(big, us[..i]) + was[2 * i..]
  }

  lemma FilledEnds(big: bool, us: seq<u16>, was: seq<u8>)
    requires 2 * |us| <= |was|
    ensures Filled(big, us, 0, was) == was
    ensures Filled(big, us, |us|, was) == SwappedAll(big, us) + was[2 * |us|..]
  {
    SwappedNone(big);
    assert us[..0] == [] && us[..|us|] == us;
  }

  lemma FilledNext(big: bool, us: seq<u16>, i: nat, was: seq<u8>)
    requires i < |us| && 2 * |us| <= |was|
    ensures var n := NativeStore16(big, us[i]);
            Filled(big, us, i, was)[2 * i := n[1]][2 * i + 1 := n[0]] == Filled(big, us, i + 1, was)
  {
    hide NativeStore16, SwappedAll;
    SwappedSnoc(big, us, i);
    StorePair(SwappedAll(big, us[..i]), was, Swapped(big, us[i]), 2 * i);
  }

  lemma SwappedNone(big: bool)
    ensures SwappedAll(big, []) == []
  {
  }

  lemma StorePair(a: seq<u8>, m: seq<u8>, u: seq<u8>, k: nat)
    requires |u| == 2 && |a| == k && k + 2 <= |m|
    ensures (a + m[k..])[k := u[0]][k + 1 := u[1]] == a + u + m[k + 2..]
  {
  }

  lemma SwappedSnoc(big: bool, us: seq<u16>, i: nat)
    requires i < |us|
    ensures SwappedAll(big, us[..i + 1]) == SwappedAll(big, us[..i]) + Swapped(big, us[i])
  {
    SwappedJoin(big, us[..i], us[i]);
    assert us[..i + 1] == us[..i] + [us[i]];
  }

  lemma {:induction false} SwappedJoin(big: bool, us: seq<u16>, u: u16)
    ensures SwappedAll(big, us + [u]) == SwappedAll(big, us) + Swapped(big, u)
  {
    hide Swapped;
    if us == [] {
      assert [u][1..] == [] && us + [u] == [u];
    } else {
      assert (us + [u])[1..] == us[1..] + [u];
      SwappedJoin(big, us[1..], u);
    }
  }

  /**
   smpp_datacoding_convert_ucs2_to_utf8 on count units of memory from unit start: characters
   go to a zeroed scratch buffer, and the result ends at the first zero there.
   */
  method Ucs2ToUtf8(m: seq<u8>, start: nat, count: nat) returns (s: seq<u8>)
    requires 2 * (start + count) <= |m|
    ensures s == UpToZero(Utf8(LoadAll(m, start, count)) + [0])
  {
    hide *;
    var bp := new u8[count * 4 + 32](_ => 0);
    var length: nat := 0;
    var i: nat := 0;
    Utf8None();
    assert bp[..] == Zeros(count * 4 + 32) by {
      ZerosAre(bp[..]);
    }
    while i < count
      invariant i <= count
      invariant length == |Utf8(LoadAll(m, start, i))| <= 3 * i
      invariant bp[..] == Utf8(LoadAll(m, start, i)) + Zeros(count * 4 + 32 - length)
    {
      LoadSnoc(m, start, i);
      var c := EncodeChar(Load(m, start + i));
      StoreChar(bp, length, c, Utf8(LoadAll(m, start, i)), count * 4 + 32 - length);
      length := length + |c|;
      i := i + 1;
    }
    s := UpToZero(bp[..]);
    ZerosAfter(Utf8(LoadAll(m, start, count)), count * 4 + 32 - length);
  }

  lemma Utf8None()
    ensures forall m: seq<u8>, start: nat | 2 * start <= |m| :: Utf8(LoadAll(m, start, 0)) == []
  {
  }

  lemma ZerosAre(s: seq<u8>)
    requires forall i :: 0 <= i < |s| ==> s[i] == 0
    ensures s == Zeros(|s|)
  {
  }

  lemma LoadSnoc(m: seq<u8>, start: nat, i: nat)
    requires 2 * (start + i + 1) <= |m|
    ensures LoadAll(m, start, i + 1) == LoadAll(m, start, i) + [Load(m, start + i)]
    ensures Utf8(LoadAll(m, start, i + 1)) == Utf8(LoadAll(m, start, i)) + EncodeChar(Load(m, start + i))
  {
    hide EncodeChar, Load;
    var u: u16 := Load(m, start + i);
    assert LoadAll(m, start, i + 1) == LoadAll(m, start, i) + [u];
    Utf8Join(LoadAll(m, start, i), [u]);
    assert [u][1..] == [];
  }

  /** set_data, octet by octet. */
  method StoreChar(bp: array<u8>, at: nat, c: seq<u8>, ghost front: seq<u8>, ghost left: nat)
    requires |c| <= left && |front| == at && bp[..] == front + Zeros(left)
    modifies bp
    ensures bp[..] == front + c + Zeros(left - |c|)
  {
    var j := 0;
    while j < |c|
      invariant 0 <= j <= |c|
      invariant bp[..] == front + c[..j] + Zeros(left - j)
    {
      bp[at + j] := c[j];
      j := j + 1;
    }
  }

  /** What a zeroed buffer reads as does not depend on how many zeros follow. */
  lemma {:induction false} ZerosAfter(s: seq<u8>, n: nat)
    requires n > 0
    ensures UpToZero(s + Zeros(n)) == UpToZero(s + [0])
  {
    if s == [] {
    } else {
      assert (s + Zeros(n))[1..] == s[1..] + Zeros(n) && (s + [0])[1..] == s[1..] + [0];
      ZerosAfter(s[1..], n);
    }
  }

  /** The scalars read from memory, back to front: nothing is lost to an early zero. */
  lemma ScalarsSurvive(us: seq<u16>)
    requires Scalars(us)
    ensures UpToZero(Utf8(us) + [0]) == Utf8(us)
  {
    Utf8HasNoZero(us);
    UpToZeroWhole(Utf8(us), []);
    assert Utf8(us) + [0] + [] == Utf8(us) + [0];
  }

  /** On a little-endian host the memory that one conversion fills, the other takes back. */
  lemma MemoryRoundTrip(s: seq<u8>)
    requires WellFormed(s)
    ensures Decodes(s, 0)
    ensures var us := Units(s, 0);
            UpToZero(Utf8(LoadAll(SwappedAll(false, us), 0, |us|)) + [0]) == s
  {
    Utf8OfUnits(s);
    var us := Units(s, 0);
    forall i | 0 <= i < |us|
      ensures LoadAll(SwappedAll(false, us), 0, |us|)[i] == us[i]
    {
      LoadSwapped(us, i);
    }
    assert LoadAll(SwappedAll(false, us), 0, |us|) == us;
    ScalarsSurvive(us);
  }
}
