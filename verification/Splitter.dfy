/**
 Splitting a long short message into the parts of a concatenated one: at most 153 septets
 each, or 67 UCS-2 units each once any octet is 0xA0 or more.
 */
module Splitter {
  import opened Bytes
  import opened Utf8Ucs2

  /** One splitted_sm; total and index are octets of the user data header. */
  datatype Part = Part(content: seq<u8>, dc: u8, ref: u8, total: u8, index: u8)

  const SINGLE_7BIT := 160
  const SINGLE_UCS2 := 70

  // ---- How many parts ----

  /** The number of parts, with the quotient cut at 255 and the remainder counted after that. */
  function Count(len: nat, w: nat): nat
    requires w > 0
  {
    var n := if len / w > 255 then 255 else len / w;
    if Kept(len, w) % w > 0 then n + 1 else n
  }

  /** How much of the message the count covers. */
  function Kept(len: nat, w: nat): nat
    requires w > 0
  {
    if len / w > 255 then 255 * w else len
  }

  lemma CountIs(len: nat, w: nat)
    requires (w == 153 || w == 67) && len > w
    ensures Count(len, w) >= 2 && Kept(len, w) <= len
    ensures w * (Count(len, w) - 1) < Kept(len, w) <= w * Count(len, w)
    ensures Kept(len, w) == len <==> len < 256 * w
    ensures Count(len, w) <= 255 <==> len <= 255 * w || 256 * w <= len
    ensures Count(len, w) <= 256
  {
    if w == 153 {
      CountIs153(len);
    } else {
      CountIs67(len);
    }
  }

  lemma CountIs153(len: nat)
    requires len > 153
    ensures Count(len, 153) >= 2 && Kept(len, 153) <= len
    ensures 153 * (Count(len, 153) - 1) < Kept(len, 153) <= 153 * Count(len, 153)
    ensures Kept(len, 153) == len <==> len < 39168
    ensures Count(len, 153) <= 255 <==> len <= 39015 || 39168 <= len
    ensures Count(len, 153) <= 256
  {
  }

  lemma CountIs67(len: nat)
    requires len > 67
    ensures Count(len, 67) >= 2 && Kept(len, 67) <= len
    ensures 67 * (Count(len, 67) - 1) < Kept(len, 67) <= 67 * Count(len, 67)
    ensures Kept(len, 67) == len <==> len < 17152
    ensures Count(len, 67) <= 255 <==> len <= 17085 || 17152 <= len
    ensures Count(len, 67) <= 256
  {
  }

  lemma Times(w: nat, a: nat, b: nat)
    requires a <= b
    ensures w * a <= w * b
  {
  }

  // ---- Slices ----

  function Slice<T>(s: seq<T>, w: nat, n: nat, i: nat): seq<T>
    requires i < n && w * (n - 1) <= |s|
  {
    Times(w, i, n - 1);
    if i == n - 1 then s[w * i..]
    else
      Times(w, i + 1, n - 1);
      s[w * i..w * (i + 1)]
  }

  function Slices<T>(s: seq<T>, w: nat, n: nat): (r: seq<seq<T>>)
    requires w * (n - 1) <= |s|
    ensures |r| == n
  {
    seq(n, i requires 0 <= i < n => Slice(s, w, n, i))
  }

  lemma ConcatSlices<T>(s: seq<T>, w: nat, n: nat)
    requires n > 0 && w * (n - 1) <= |s|
    ensures Concat(Slices(s, w, n)) == s
  {
    hide Concat, Slice;
    var r := Slices(s, w, n);
    ConcatFirst(s, w, n, n - 1);
    ConcatSnoc(r[..n - 1], r[n - 1]);
    assert r == r[..n - 1] + [r[n - 1]];
    LastSlice(s, w, n);
    JoinAt(s, w * (n - 1), |s|);
    assert s[..|s|] == s;
  }

  lemma {:induction false} ConcatFirst<T>(s: seq<T>, w: nat, n: nat, k: nat)
    requires k < n && w * (n - 1) <= |s|
    ensures w * k <= |s| && Concat(Slices(s, w, n)[..k]) == s[..w * k]
  {
    hide Slice;
    var r := Slices(s, w, n);
    Times(w, k, n - 1);
    if k > 0 {
      ConcatFirst(s, w, n, k - 1);
      hide Concat;
      ConcatSnoc(r[..k - 1], r[k - 1]);
      assert r[..k] == r[..k - 1] + [r[k - 1]];
      EarlySlice(s, w, n, k - 1);
      JoinAt(s, w * (k - 1), w * k);
    }
  }

  lemma EarlySlice<T>(s: seq<T>, w: nat, n: nat, i: nat)
    requires i + 1 < n && w * (n - 1) <= |s|
    ensures w * i <= w * (i + 1) <= |s| && Slice(s, w, n, i) == s[w * i..w * (i + 1)]
  {
    Times(w, i, i + 1);
    Times(w, i + 1, n - 1);
  }

  lemma LastSlice<T>(s: seq<T>, w: nat, n: nat)
    requires n > 0 && w * (n - 1) <= |s|
    ensures Slice(s, w, n, n - 1) == s[w * (n - 1)..|s|]
  {
  }

  lemma JoinAt<T>(s: seq<T>, a: nat, b: nat)
    requires a <= b <= |s|
    ensures s[..b] == s[..a] + s[a..b]
  {
  }

  lemma OneWider(w: nat, i: nat)
    requires i > 0
    ensures w * i == w + w * (i - 1) && w * (i + 1) == w + w * i
  {
  }

  lemma SliceBehind<T>(a: seq<T>, t: seq<T>, lo: nat, hi: nat)
    requires lo <= hi <= |t|
    ensures (a + t)[|a| + lo..|a| + hi] == t[lo..hi]
  {
  }

  /** Parts of equal width before the last can be read off their concatenation. */
  lemma {:induction false} PartOfConcat<T>(parts: seq<seq<T>>, w: nat, i: nat)
    requires i + 1 < |parts| && forall k :: 0 <= k < |parts| - 1 ==> |parts[k]| == w
    ensures w * (i + 1) <= |Concat(parts)| && Concat(parts)[w * i..w * (i + 1)] == parts[i]
  {
    var t := Concat(parts[1..]);
    assert Concat(parts) == parts[0] + t && |parts[0]| == w;
    hide Concat;
    if i == 0 {
      assert (parts[0] + t)[..w] == parts[0];
    } else {
      PartOfConcat(parts[1..], w, i - 1);
      OneWider(w, i);
      SliceBehind(parts[0], t, w * (i - 1), w * i);
    }
  }

  // ---- Seven-bit messages ----

  /** All octets before the first zero are below 0xA0. */
  predicate PureAscii(s: seq<u8>) {
    forall b :: b in UpToZero(s) ==> b < 0xA0
  }

  method IsPureAscii(s: seq<u8>) returns (r: bool)
    ensures r == PureAscii(s)
  {
    var t := UpToZero(s);
    var i := 0;
    while i < |t|
      invariant 0 <= i <= |t|
      invariant forall k :: 0 <= k < i ==> t[k] < 0xA0
    {
      if t[i] >= 0xA0 {
        assert t[i] in UpToZero(s);
        return false;
      }
      i := i + 1;
    }
    r := true;
  }

  lemma HeadOfWellFormed(s: seq<u8>, k: nat)
    requires WellFormed(s) && k < |s| && s[k] >= 0x80
    ensures exists i :: 0 <= i < |s| && s[i] >= 0xA0
    decreases |s|
  {
    var c, t := WellFormedSplit(s);
    if |c| == 1 && k > 0 {
      HeadOfWellFormed(t, k - 1);
      var i :| 0 <= i < |t| && t[i] >= 0xA0;
      assert s[i + 1] == t[i];
    } else {
      assert s[0] == c[0];
    }
  }

  /** On well-formed UTF-8 the 0xA0 threshold is the ASCII test. */
  lemma PureMeansAscii(s: seq<u8>)
    requires WellFormed(s)
    ensures PureAscii(s) <==> forall k :: 0 <= k < |s| ==> s[k] < 0x80
  {
    NoZeroInside(s);
    WithoutZero(s);
    if k: nat :| k < |s| && s[k] >= 0x80 {
      HeadOfWellFormed(s, k);
      var i :| 0 <= i < |s| && s[i] >= 0xA0;
      assert s[i] in UpToZero(s);
      assert !PureAscii(s);
    } else {
      forall b | b in UpToZero(s)
        ensures b < 0xA0
      {
        var i :| 0 <= i < |s| && s[i] == b;
      }
    }
  }

  lemma {:induction false} NoZeroInside(s: seq<u8>)
    requires WellFormed(s)
    ensures 0 !in s
    decreases |s|
  {
    if s != [] {
      var c, t := WellFormedSplit(s);
      NoZeroInside(t);
    }
  }

  lemma {:induction false} WithoutZero(s: seq<u8>)
    requires 0 !in s
    ensures UpToZero(s) == s
  {
    if s != [] {
      WithoutZero(s[1..]);
    }
  }

  function PartAt(content: seq<u8>, dc: u8, ref: u8, n: nat, i: nat): Part {
    Part(content, dc, ref, n % 0x100, (i + 1) % 0x100)
  }

  function AsciiParts(s: seq<u8>, ref: u8): seq<Part> {
    if |s| <= SINGLE_7BIT then [Part(s, 0, 0, 1, 1)]
    else
      CountIs(|s|, 153);
      var n := Count(|s|, 153);
      seq(n, i requires 0 <= i < n => PartAt(Slice(s, 153, n, i), 0, ref, n, i))
  }

  function Contents(ps: seq<Part>): (r: seq<seq<u8>>)
    ensures |r| == |ps| && forall i :: 0 <= i < |ps| ==> r[i] == ps[i].content
  {
    seq(|ps|, i requires 0 <= i < |ps| => ps[i].content)
  }

  /** Section 9.2.3.24.1 of 3GPP TS 23.040: the total is the part count, the indices run from 1. */
  predicate Numbered(ps: seq<Part>) {
    && 1 <= |ps| <= 255
    && forall i :: 0 <= i < |ps| ==> ps[i].total == |ps| && ps[i].index == i + 1
  }

  lemma AsciiLosesNothing(s: seq<u8>, ref: u8)
    ensures Concat(Contents(AsciiParts(s, ref))) == s
  {
    if |s| <= SINGLE_7BIT {
      assert Contents(AsciiParts(s, ref)) == [s];
      assert [s][1..] == [];
    } else {
      CountIs(|s|, 153);
      var n := Count(|s|, 153);
      assert Contents(AsciiParts(s, ref)) == Slices(s, 153, n);
      ConcatSlices(s, 153, n);
    }
  }

  predicate Short(ps: seq<Part>, w: nat) {
    |ps| > 1 ==> forall i :: 0 <= i < |ps| ==> |ps[i].content| <= w
  }

  /** The header fields and the segment sizes are right exactly up to 39015 octets. */
  lemma AsciiSoundIff(s: seq<u8>, ref: u8)
    ensures Numbered(AsciiParts(s, ref)) && Short(AsciiParts(s, ref), 153) <==> |s| <= 39015
  {
    var ps := AsciiParts(s, ref);
    if |s| > SINGLE_7BIT {
      CountIs(|s|, 153);
      var n := Count(|s|, 153);
      assert ps[n - 1].content == s[153 * (n - 1)..];
      if |s| <= 39015 {
        forall i | 0 <= i < n
          ensures |ps[i].content| <= 153
        {
          if i < n - 1 {
            assert |Slice(s, 153, n, i)| == 153 * (i + 1) - 153 * i;
          }
        }
      } else if |s| >= 256 * 153 {
        assert |ps[n - 1].content| > 153;
      }
    }
  }

  // ---- UCS-2 messages ----

  /** The units as the second conversion sees them. */
  function Seen(big: bool, us: seq<u16>): (vs: seq<u16>)
    ensures |vs| == |us|
  {
    LoadAll(SwappedAll(big, us), 0, |us|)
  }

  function Text(us: seq<u16>): seq<u8> {
    UpToZero(Utf8(us) + [0])
  }

  /** Where part i takes its units from: sliced is what the code prepares, the front is what it passes. */
  function UcsSlice(us: seq<u16>, n: nat, i: nat, sliced: bool): seq<u16>
    requires i < n && 2 <= n && 67 * (n - 1) <= |us|
  {
    if i == n - 1 then us[67 * i..]
    else if sliced then us[67 * i..67 * (i + 1)]
    else us[..67]
  }

  function UcsParts(s: seq<u8>, us: seq<u16>, ref: u8, sliced: bool): seq<Part> {
    if |us| <= SINGLE_UCS2 then [Part(s, 8, 0, 1, 1)]
    else
      CountIs(|us|, 67);
      var n, kept := Count(|us|, 67), us[..Kept(|us|, 67)];
      seq(n, i requires 0 <= i < n => PartAt(Text(UcsSlice(kept, n, i, sliced)), 8, ref, n, i))
  }

  /** The parts as the code makes them: the front of the units is passed for every one but the last. */
  function SplitParts(big: bool, s: seq<u8>, ref: u8): seq<Part>
    requires !PureAscii(s) ==> Decodes(UpToZero(s), 0)
  {
    if PureAscii(s) then AsciiParts(s, ref)
    else UcsParts(s, Seen(big, Units(UpToZero(s), 0)), ref, false)
  }

  method SplitLongSm(big: bool, s: seq<u8>, ref: u8) returns (parts: seq<Part>)
    requires ref < 255
    requires !PureAscii(s) ==> Decodes(UpToZero(s), 0) && |Units(UpToZero(s), 0)| <= 32768
    ensures parts == SplitParts(big, s, ref)
    ensures HeadersFit(s, ref, parts) && (PureAscii(s) <==> SingleCoded(s))
    ensures SingleCoded(s) ==> SeptetsFit(s, parts)
    ensures !SingleCoded(s) ==> (|parts| == 1 <==> |Units(UpToZero(s), 0)| <= 70)
    ensures |parts| == 1 ==> parts[0].content == s
  {
    SplitMeans(big, s, ref);
    hide HeadersFit, SeptetsFit, SplitParts, SingleCoded, AsciiParts, UcsParts;
    assert |SplitParts(big, s, ref)| >= 0;
    var pure := IsPureAscii(s);
    if pure {
      parts := SplitAscii(s, ref);
    } else {
      parts := SplitUcs(big, s, ref);
    }
  }

  // ---- What every result shows ----

  /** No octet is 0xA0 or more, save behind a zero. */
  predicate SingleCoded(s: seq<u8>) {
    forall i :: 0 <= i < |s| && s[i] >= 0xA0 ==> exists k :: 0 <= k < i && s[k] == 0
  }

  /** Data coding 0 or 8 by the octets; one reference for all of several parts, 0 for a single one; counted from 1. */
  predicate HeadersFit(s: seq<u8>, ref: u8, parts: seq<Part>) {
    && parts != []
    && forall i :: 0 <= i < |parts| ==>
         && parts[i].dc == (if SingleCoded(s) then 0 else 8)
         && parts[i].ref == (if |parts| > 1 then ref else 0)
         && parts[i].total == |parts| % 256 && parts[i].index == (i + 1) % 256
  }

  /** One part up to 160 octets; beyond that parts of 153, the last with what is left. */
  predicate SeptetsFit(s: seq<u8>, parts: seq<Part>) {
    && (|parts| == 1 <==> |s| <= 160)
    && (160 < |s| <= 39015 ==>
          && 153 * (|parts| - 1) < |s| <= 153 * |parts|
          && (forall i :: 0 <= i < |parts| - 1 ==> |parts[i].content| == 153)
          && Concat(Contents(parts)) == s)
  }

  lemma {:induction false} ZeroFirst(s: seq<u8>, i: nat)
    requires i < |s|
    ensures (forall k :: 0 <= k <= i ==> s[k] != 0) ==> s[i] in UpToZero(s)
  {
    if i > 0 && s[0] != 0 {
      ZeroFirst(s[1..], i - 1);
      assert forall k :: 0 <= k <= i - 1 ==> s[1..][k] == s[k + 1];
    }
  }

  lemma {:induction false} BeforeZero(s: seq<u8>, b: u8) returns (i: nat)
    requires b in UpToZero(s)
    ensures i < |s| && s[i] == b && forall k :: 0 <= k < i ==> s[k] != 0
  {
    if s[0] == b {
      i := 0;
    } else {
      var j := BeforeZero(s[1..], b);
      i := j + 1;
      assert forall k :: 1 <= k < i ==> s[k] == s[1..][k - 1];
    }
  }

  lemma PureIsSingleCoded(s: seq<u8>)
    ensures PureAscii(s) <==> SingleCoded(s)
  {
    hide UpToZero;
    if PureAscii(s) {
      forall i | 0 <= i < |s| && s[i] >= 0xA0
        ensures exists k :: 0 <= k < i && s[k] == 0
      {
        ZeroFirst(s, i);
        assert s[i] !in UpToZero(s);
        var k :| 0 <= k <= i && s[k] == 0;
      }
    }
    if b :| b in UpToZero(s) && b >= 0xA0 {
      var i := BeforeZero(s, b);
      assert !SingleCoded(s);
    }
  }

  lemma SplitMeans(big: bool, s: seq<u8>, ref: u8)
    requires !PureAscii(s) ==> Decodes(UpToZero(s), 0)
    ensures PureAscii(s) <==> SingleCoded(s)
    ensures var parts := SplitParts(big, s, ref);
            && HeadersFit(s, ref, parts) && (PureAscii(s) ==> SeptetsFit(s, parts))
            && (!PureAscii(s) ==> (|parts| == 1 <==> |Units(UpToZero(s), 0)| <= 70))
            && (|parts| == 1 ==> parts[0].content == s)
  {
    hide UpToZero, PureAscii, SingleCoded, Units, Decodes, Seen, Text, UcsSlice, Count, Kept;
    PureIsSingleCoded(s);
    if PureAscii(s) {
      SeptetParts(s, ref);
    } else {
      var us := Seen(big, Units(UpToZero(s), 0));
      if |us| > SINGLE_UCS2 {
        CountIs(|us|, 67);
      }
    }
  }

  lemma SeptetParts(s: seq<u8>, ref: u8)
    ensures SeptetsFit(s, AsciiParts(s, ref)) && AsciiParts(s, ref) != []
    ensures |AsciiParts(s, ref)| == 1 ==> AsciiParts(s, ref)[0].content == s
    ensures var ps := AsciiParts(s, ref);
            forall i :: 0 <= i < |ps| ==>
              ps[i].dc == 0 && ps[i].ref == (if |ps| > 1 then ref else 0) && ps[i].total == |ps| % 256
              && ps[i].index == (i + 1) % 256
  {
    hide Count, Kept;
    AsciiLosesNothing(s, ref);
    if |s| > SINGLE_7BIT {
      CountIs(|s|, 153);
      var n := Count(|s|, 153);
      forall i | 0 <= i < n - 1
        ensures |Slice(s, 153, n, i)| == 153
      {
        Times(153, i + 1, n - 1);
      }
    }
  }

  method Segments(len: nat, w: nat) returns (n: nat, kept: nat)
    requires w > 0
    ensures n == Count(len, w) && kept == Kept(len, w)
  {
    n, kept := len / w, len;
    if n > 255 {
      n := 255;
      kept := n * w;
    }
    if kept % w > 0 {
      n := n + 1;
    }
  }

  method SplitAscii(s: seq<u8>, ref: u8) returns (parts: seq<Part>)
    ensures parts == AsciiParts(s, ref)
  {
    hide Count, Kept;
    var n, kept := Segments(|s|, 153);
    if kept <= 160 {
      KeptSmall(|s|, 153);
      return [Part(s, 0, 0, 1, 1)];
    }
    KeptSmall(|s|, 153);
    CountIs(|s|, 153);
    parts := [];
    for i := 0 to n
      invariant |parts| == i
      invariant forall k :: 0 <= k < i ==> parts[k] == PartAt(Slice(s, 153, n, k), 0, ref, n, k)
    {
      var begin := i * 153;
      var content := if i == n - 1 then s[begin..] else s[begin..begin + 153];
      parts := parts + [Part(content, 0, ref, n % 0x100, (i + 1) % 0x100)];
    }
  }

  lemma KeptSmall(len: nat, w: nat)
    requires 1 <= w
    ensures Kept(len, w) <= 160 && w >= 67 ==> Kept(len, w) == len
    ensures Kept(len, w) > 160 ==> len > 160
    ensures Kept(len, w) > 70 ==> len > 70
  {
    if len / w > 255 {
      Times(w, 256, len / w);
      assert len >= w * (len / w);
    }
  }

  method SplitUcs(big: bool, s: seq<u8>, ref: u8) returns (parts: seq<Part>)
    requires Decodes(UpToZero(s), 0) && |Units(UpToZero(s), 0)| <= 32768
    ensures parts == UcsParts(s, Seen(big, Units(UpToZero(s), 0)), ref, false)
  {
    hide Count, Kept, UpToZero, Utf8, Decodes, Units, SwappedAll, LoadAll;
    var bytes := new u8[0x1_0000](_ => 0);
    var length := Utf8ToUcs2(big, UpToZero(s), bytes);
    ghost var us := Seen(big, Units(UpToZero(s), 0));
    assert length / 2 == |us|;
    ghost var m := bytes[..];
    assert m[..length] == SwappedAll(big, Units(UpToZero(s), 0));
    var n, kept := Segments(length / 2, 67);
    KeptSmall(|us|, 67);
    if kept <= 70 {
      return [Part(s, 8, 0, 1, 1)];
    }
    CountIs(|us|, 67);
    parts := [];
    for i := 0 to n
      invariant |parts| == i
      invariant bytes[..] == m
      invariant forall k :: 0 <= k < i ==> parts[k] == PartAt(Text(UcsSlice(us[..kept], n, k, false)), 8, ref, n, k)
    {
      var begin := i * 67;
      var content: seq<u8>;
      if i == n - 1 {
        SeenSlice(big, Units(UpToZero(s), 0), m, begin, kept - begin);
        content := Ucs2ToUtf8(bytes[..], begin, kept - begin);
        assert us[..kept][begin..] == us[begin..kept];
      } else {
        SeenSlice(big, Units(UpToZero(s), 0), m, 0, 67);
        content := Ucs2ToUtf8(bytes[..], 0, 67);
        assert us[..kept][..67] == us[0..67];
      }
      parts := parts + [Part(content, 8, ref, n % 0x100, (i + 1) % 0x100)];
    }
  }

  lemma SeenSlice(big: bool, us: seq<u16>, m: seq<u8>, start: nat, count: nat)
    requires start + count <= |us| && 2 * |us| <= |m| && m[..2 * |us|] == SwappedAll(big, us)
    ensures LoadAll(m, start, count) == Seen(big, us)[start..start + count]
  {
    hide SwappedAll;
    forall i | 0 <= i < count
      ensures LoadAll(m, start, count)[i] == Seen(big, us)[start + i]
    {
      var a := SwappedAll(big, us);
      var k := 2 * (start + i);
      assert a[k] == m[..2 * |us|][k] == m[k] && a[k + 1] == m[..2 * |us|][k + 1] == m[k + 1];
      assert Load(a, start + i) == Load(m, start + i);
    }
  }

  // ---- What the UCS-2 parts add up to ----

  function UcsUnits(us: seq<u16>, n: nat, sliced: bool): (r: seq<seq<u16>>)
    requires 2 <= n && 67 * (n - 1) <= |us|
    ensures |r| == n
  {
    seq(n, i requires 0 <= i < n => UcsSlice(us, n, i, sliced))
  }

  /** Each part but the last is full of the units that the first part has. */
  predicate Repeats(us: seq<u16>, n: nat) {
    forall k :: 0 <= k < 67 * (n - 1) && k < |us| ==> us[k] == us[k % 67]
  }

  lemma SlicedAddsUp(us: seq<u16>, n: nat)
    requires 2 <= n && 67 * (n - 1) <= |us|
    ensures Concat(UcsUnits(us, n, true)) == us
  {
    assert UcsUnits(us, n, true) == Slices(us, 67, n);
    ConcatSlices(us, 67, n);
  }

  /** Passing the front instead of the slice goes unnoticed exactly for repeating messages. */
  lemma FrontAddsUpIff(us: seq<u16>, n: nat)
    requires 2 <= n && 67 * (n - 1) <= |us|
    ensures Concat(UcsUnits(us, n, false)) == us <==> Repeats(us, n)
  {
    var parts := UcsUnits(us, n, false);
    if Concat(parts) == us {
      forall k | 0 <= k < 67 * (n - 1)
        ensures us[k] == us[k % 67]
      {
        var i := k / 67;
        PartOfConcat(parts, 67, i);
        assert us[67 * i..67 * (i + 1)] == us[..67];
        assert us[k] == us[67 * i..67 * (i + 1)][k - 67 * i];
      }
    }
    if Repeats(us, n) {
      forall i | 0 <= i < n
        ensures parts[i] == UcsSlice(us, n, i, true)
      {
        if i < n - 1 {
          RepeatsSlice(us, n, i);
        }
      }
      assert parts == UcsUnits(us, n, true);
      SlicedAddsUp(us, n);
    }
  }

  lemma RepeatsSlice(us: seq<u16>, n: nat, i: nat)
    requires i < n - 1 && 67 * (n - 1) <= |us| && Repeats(us, n)
    ensures us[67 * i..67 * (i + 1)] == us[..67]
  {
    forall j | 0 <= j < 67
      ensures us[67 * i + j] == us[j]
    {
      assert (67 * i + j) % 67 == j;
    }
  }

  function Texts(parts: seq<seq<u16>>): (r: seq<seq<u8>>)
    ensures |r| == |parts|
  {
    if parts == [] then [] else [Text(parts[0])] + Texts(parts[1..])
  }

  lemma {:induction false} TextsAt(parts: seq<seq<u16>>, i: nat)
    requires i < |parts|
    ensures Texts(parts)[i] == Text(parts[i])
  {
    hide Text;
    if i > 0 {
      TextsAt(parts[1..], i - 1);
    }
  }

  lemma {:induction false} ConcatTexts(parts: seq<seq<u16>>)
    requires forall p :: p in parts ==> Scalars(p)
    ensures Concat(Texts(parts)) == Utf8(Concat(parts)) && Scalars(Concat(parts))
  {
    hide UpToZero, Utf8, Scalar;
    if parts == [] {
      NoUnits();
    } else {
      ScalarsSurvive(parts[0]);
      ConcatTexts(parts[1..]);
      Utf8Join(parts[0], Concat(parts[1..]));
    }
  }

  lemma Utf8Injective(a: seq<u16>, b: seq<u16>)
    requires Scalars(a) && Scalars(b) && Utf8(a) == Utf8(b)
    ensures a == b
  {
    UnitsOfUtf8(a);
    UnitsOfUtf8(b);
  }

  /** The contents put together are the UTF-8 form of the units put together. */
  lemma UcsContents(s: seq<u8>, us: seq<u16>, ref: u8, sliced: bool)
    requires Scalars(us) && |us| > SINGLE_UCS2
    ensures var n, kept := Count(|us|, 67), us[..Kept(|us|, 67)];
            && 2 <= n && 67 * (n - 1) <= |kept|
            && Concat(Contents(UcsParts(s, us, ref, sliced))) == Utf8(Concat(UcsUnits(kept, n, sliced)))
            && Scalars(Concat(UcsUnits(kept, n, sliced)))
  {
    hide UpToZero, Utf8, Scalar, Count, Kept;
    CountIs(|us|, 67);
    var n, kept := Count(|us|, 67), us[..Kept(|us|, 67)];
    var parts := UcsUnits(kept, n, sliced);
    var ps := UcsParts(s, us, ref, sliced);
    forall i | 0 <= i < n
      ensures Contents(ps)[i] == Texts(parts)[i]
    {
      TextsAt(parts, i);
    }
    assert Contents(ps) == Texts(parts);
    ConcatTexts(parts);
  }

  /**
   A well-formed message on a little-endian host: the parts put together are the message
   exactly when it is single, or has at most 17151 units and every part but the last would
   hold the same units as the first. Were each part given its own slice of the units, the
   last condition would fall away.
   */
  lemma UcsLosesNothingIff(s: seq<u8>, ref: u8, sliced: bool)
    requires WellFormed(s)
    ensures Decodes(s, 0)
    ensures var us := Units(s, 0);
            Concat(Contents(UcsParts(s, us, ref, sliced))) == s
            <==> |us| <= SINGLE_UCS2 || (|us| < 17152 && (sliced || Repeats(us, Count(|us|, 67))))
  {
    hide UpToZero, Utf8, Scalar, Count, Kept, Units, Decodes, Repeats;
    Utf8OfUnits(s);
    var us := Units(s, 0);
    if |us| <= SINGLE_UCS2 {
      assert Contents(UcsParts(s, us, ref, sliced)) == [s];
      assert [s][1..] == [];
    } else {
      UcsContents(s, us, ref, sliced);
      CountIs(|us|, 67);
      var n, kept := Count(|us|, 67), us[..Kept(|us|, 67)];
      var whole := Concat(UcsUnits(kept, n, sliced));
      if Utf8(whole) == s {
        Utf8Injective(whole, us);
      }
      if sliced {
        SlicedAddsUp(kept, n);
      } else {
        FrontAddsUpIff(kept, n);
        FrontLength(kept, n);
      }
      assert |us| < 17152 ==> kept == us;
    }
  }

  lemma FrontLength(us: seq<u16>, n: nat)
    requires 2 <= n && 67 * (n - 1) <= |us|
    ensures |Concat(UcsUnits(us, n, false))| == |us|
  {
    var a, b := UcsUnits(us, n, false), UcsUnits(us, n, true);
    forall i | 0 <= i < n
      ensures |a[i]| == |b[i]|
    {
    }
    SameLengths(a, b);
    SlicedAddsUp(us, n);
  }

  lemma {:induction false} SameLengths<T>(a: seq<seq<T>>, b: seq<seq<T>>)
    requires |a| == |b| && forall i :: 0 <= i < |a| ==> |a[i]| == |b[i]|
    ensures |Concat(a)| == |Concat(b)|
  {
    if a != [] {
      SameLengths(a[1..], b[1..]);
    }
  }

  /** Header fields and sizes are right except where the part count comes out as 256. */
  lemma UcsSoundIff(s: seq<u8>, us: seq<u16>, ref: u8, sliced: bool)
    ensures Numbered(UcsParts(s, us, ref, sliced)) <==> |us| <= 17085 || 17152 <= |us|
  {
    hide Text, UcsSlice;
    if |us| > SINGLE_UCS2 {
      CountIs(|us|, 67);
    }
  }

  lemma SeenAsMeant(us: seq<u16>)
    ensures Seen(false, us) == us
  {
    forall i | 0 <= i < |us|
      ensures Seen(false, us)[i] == us[i]
    {
      LoadSwapped(us, i);
    }
  }

  /** What SplitLongSm returns on a little-endian host, put together, is the message exactly then. */
  lemma SplitLosesNothingIff(s: seq<u8>, ref: u8)
    requires WellFormed(s)
    ensures UpToZero(s) == s && Decodes(s, 0)
    ensures var us := Units(s, 0);
            Concat(Contents(SplitParts(false, s, ref))) == s
            <==> PureAscii(s) || |us| <= SINGLE_UCS2 || (|us| < 17152 && Repeats(us, Count(|us|, 67)))
  {
    hide UpToZero, PureAscii, Units, Decodes, Count, Repeats, Seen, WellFormed, AsciiParts, UcsParts;
    NoZeroInside(s);
    WithoutZero(s);
    UcsLosesNothingIff(s, ref, false);
    SeenAsMeant(Units(s, 0));
    if PureAscii(s) {
      AsciiLosesNothing(s, ref);
    }
  }

  /** What is in each part: the first 67 units, and in the last one those from its own position on. */
  lemma UcsPartHolds(s: seq<u8>, us: seq<u16>, ref: u8, i: nat)
    requires Scalars(us) && SINGLE_UCS2 < |us| < 17152
    requires i < |UcsParts(s, us, ref, false)|
    ensures var n := |UcsParts(s, us, ref, false)|;
            && 67 * (n - 1) < |us| <= 67 * n
            && UcsParts(s, us, ref, false)[i].content == if i < n - 1 then Utf8(us[..67]) else Utf8(us[67 * i..])
  {
    hide Utf8, UpToZero, Count, Kept, Scalar;
    CountIs(|us|, 67);
    var n := Count(|us|, 67);
    assert us[..Kept(|us|, 67)] == us;
    ScalarsSurvive(us[67 * (n - 1)..]);
    ScalarsSurvive(us[..67]);
  }

  /** No part has more than 67 units. */
  lemma UcsShort(us: seq<u16>, i: nat, sliced: bool)
    requires |us| > SINGLE_UCS2 && i < Count(|us|, 67)
    ensures var n, kept := Count(|us|, 67), us[..Kept(|us|, 67)];
            2 <= n && 67 * (n - 1) <= |kept| && |UcsSlice(kept, n, i, sliced)| <= 67
  {
    hide Count, Kept;
    CountIs(|us|, 67);
  }

  /** Two parts are always right, since the second is the last one. */
  lemma TwoPartsRepeat(us: seq<u16>)
    requires SINGLE_UCS2 < |us| <= 134
    ensures Count(|us|, 67) == 2 && Repeats(us, Count(|us|, 67))
  {
  }

  /** 67 characters of one kind followed by 68 of another come out wrong. */
  lemma FrontLosesSomething(ref: u8)
    ensures var us := seq<u16>(135, i => if i < 67 then 0x4E2D else 0x4E2E);
            Scalars(us) && WellFormed(Utf8(us)) && Decodes(Utf8(us), 0) && Units(Utf8(us), 0) == us
            && Concat(Contents(UcsParts(Utf8(us), us, ref, false))) != Utf8(us)
  {
    hide Utf8, Decodes, Units, WellFormed, UcsParts;
    var us := seq<u16>(135, i => if i < 67 then 0x4E2D else 0x4E2E);
    UnitsOfUtf8(us);
    UcsLosesNothingIff(Utf8(us), ref, false);
    assert us[67] != us[67 % 67];
    assert Count(135, 67) == 3;
  }
}
