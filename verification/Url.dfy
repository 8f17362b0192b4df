/**
 The URL codec of the web server: escaping into a bounded buffer, and unescaping into a
 bounded buffer that may be the one being read.
 */
module Url {
  import opened Bytes

  datatype Cell = Untouched | Written(octet: u8)

  predicate IsDigit(c: u8) {
    48 <= c <= 57
  }

  predicate IsHex(c: u8) {
    IsDigit(c) || 65 <= c <= 70 || 97 <= c <= 102
  }

  /** HEXTOI of the lower-case digit. */
  function HexValue(c: u8): (v: nat)
    requires IsHex(c)
    ensures v < 16
  {
    if IsDigit(Lower(c)) then Lower(c) - 48 else Lower(c) - 87
  }

  /** c is the hexadecimal digit of value v, in either letter case. */
  predicate HasValue(c: u8, v: nat) {
    v < 16 && ("0123456789abcdef"[v] as int == c || "0123456789ABCDEF"[v] as int == c)
  }

  lemma DigitAt(v: nat)
    requires v < 16
    ensures "0123456789abcdef"[v] as int == if v < 10 then 48 + v else 87 + v
    ensures "0123456789ABCDEF"[v] as int == if v < 10 then 48 + v else 55 + v
  {
  }

  lemma HexValueIs(c: u8)
    ensures IsHex(c) ==> HasValue(c, HexValue(c))
    ensures forall v: nat :: HasValue(c, v) ==> IsHex(c) && v == HexValue(c)
  {
    if IsHex(c) {
      DigitAt(HexValue(c));
    }
    forall v: nat | HasValue(c, v)
      ensures IsHex(c) && v == HexValue(c)
    {
      DigitAt(v);
    }
  }

  lemma HexDigitValue(v: nat)
    requires v < 16
    ensures IsHex(HexDigit(v)) && HexValue(HexDigit(v)) == v
  {
  }

  /** Letters, digits and . _ - $ , ; ~ ( ) stand for themselves. */
  predicate Unescaped(c: u8) {
    IsDigit(c) || 65 <= c <= 90 || 97 <= c <= 122
    || c == 46 || c == 95 || c == 45 || c == 36 || c == 44 || c == 59 || c == 126 || c == 40 || c == 41
  }

  function EncodeOctet(c: u8): (s: seq<u8>)
    ensures |s| == if Unescaped(c) then 1 else 3
  {
    if Unescaped(c) then [c] else [37, HexDigit(c / 16), HexDigit(c % 16)]
  }

  /** Escaping leaves letters, digits and nine signs, and writes two lower-case digits for every other octet. */
  lemma EscapedAs(c: u8)
    ensures var plain := 48 <= c <= 57 || 65 <= c <= 90 || 97 <= c <= 122 || c in [46, 95, 45, 36, 44, 59, 126, 40, 41];
            && |EncodeOctet(c)| == (if plain then 1 else 3)
            && (plain ==> EncodeOctet(c)[0] == c)
            && (!plain ==> EncodeOctet(c)[0] == 37 && EncodeOctet(c)[1] == "0123456789abcdef"[c / 16] as int
                           && EncodeOctet(c)[2] == "0123456789abcdef"[c % 16] as int)
  {
  }

  /** The escaped form of the string that s holds up to its first zero. */
  function Encoded(s: seq<u8>): seq<u8> {
    if s == [] || s[0] == 0 then [] else EncodeOctet(s[0]) + Encoded(s[1..])
  }

  lemma {:induction false} EncodedLength(s: seq<u8>)
    ensures |Encoded(s)| <= 3 * |s|
  {
    if s != [] {
      EncodedLength(s[1..]);
    }
  }

  /** What one octet puts into room more octets; an escape that does not fit leaves a hole. */
  function SpreadOctet(c: u8, room: nat): (r: seq<Cell>)
    requires room > 0
    ensures 1 <= |r| <= room
  {
    if |EncodeOctet(c)| <= room then AllWritten(EncodeOctet(c)) else [Untouched]
  }

  /** What ends up in the room octets before the final zero. */
  function Spread(s: seq<u8>, room: nat): (r: seq<Cell>)
    ensures |r| <= room
    decreases s
  {
    if s == [] || s[0] == 0 || room == 0 then []
    else var r := SpreadOctet(s[0], room); r + Spread(s[1..], room - |r|)
  }

  function AllWritten(s: seq<u8>): (r: seq<Cell>)
    ensures |r| == |s|
    ensures forall k :: 0 <= k < |s| ==> r[k] == Written(s[k])
  {
    seq(|s|, i requires 0 <= i < |s| => Written(s[i]))
  }

  /** The buffer receives the whole escaped string exactly when that string fits before the zero. */
  lemma {:induction false} SpreadIsEncoding(s: seq<u8>, room: nat)
    ensures Spread(s, room) == AllWritten(Encoded(s)) <==> |Encoded(s)| <= room
  {
    hide AllWritten, EncodeOctet;
    if s != [] && s[0] != 0 && room != 0 {
      var c := EncodeOctet(s[0]);
      if |c| <= room {
        SpreadIsEncoding(s[1..], room - |c|);
        AllWrittenJoin(c, Encoded(s[1..]));
        SplitAt(AllWritten(c), Spread(s[1..], room - |c|), AllWritten(Encoded(s[1..])));
      }
    }
  }

  lemma AllWrittenJoin(s: seq<u8>, t: seq<u8>)
    ensures AllWritten(s + t) == AllWritten(s) + AllWritten(t)
  {
  }

  lemma SplitAt(a: seq<Cell>, b: seq<Cell>, c: seq<Cell>)
    ensures a + b == a + c <==> b == c
  {
    assert (a + b)[|a|..] == b && (a + c)[|a|..] == c;
  }

  /** The memory m after the written cells are stored from position at on. */
  function Stored(m: seq<u8>, at: nat, cells: seq<Cell>): (r: seq<u8>)
    requires at + |cells| <= |m|
    ensures |r| == |m|
  {
    seq(|m|, k requires 0 <= k < |m| =>
      if at <= k < at + |cells| && cells[k - at].Written? then cells[k - at].octet else m[k])
  }

  lemma StoredTwice(m: seq<u8>, a: seq<Cell>, b: seq<Cell>)
    requires |a| + |b| <= |m|
    ensures Stored(Stored(m, 0, a), |a|, b) == Stored(m, 0, a + b)
  {
  }

  lemma StoredAll(m: seq<u8>, s: seq<u8>)
    requires |s| <= |m|
    ensures Stored(m, 0, AllWritten(s)) == s + m[|s|..]
  {
  }

  /** One pass of the loop: the octet c at position j. */
  method EncodeOne(c: u8, dst: array<u8>, j: nat, end: nat) returns (next: nat)
    requires j < end <= dst.Length
    modifies dst
    ensures next == j + |SpreadOctet(c, end - j)|
    ensures dst[..] == Stored(old(dst[..]), j, SpreadOctet(c, end - j))
  {
    next := j;
    if Unescaped(c) {
      dst[next] := c;
    } else if next + 2 < end {
      dst[next] := 37;
      dst[next + 1] := HexDigit(c / 16);
      dst[next + 2] := HexDigit(c % 16);
      next := next + 2;
    }
    next := next + 1;
  }

  method Encode(src: seq<u8>, dst: array<u8>, dstLen: nat)
    requires 1 <= dstLen <= dst.Length
    modifies dst
    ensures var cells := Spread(src, dstLen - 1);
            dst[..] == Stored(old(dst[..]), 0, cells)[|cells| := 0]
  {
    hide *;
    var i, j: nat := 0, 0;
    var end := dstLen - 1;
    ghost var done: seq<Cell> := [];
    StoredNothing(dst[..]);
    while i < |src| && src[i] != 0 && j < end
      invariant i <= |src| && j <= end && |done| == j
      invariant done + Spread(src[i..], end - j) == Spread(src, end)
      invariant dst[..] == Stored(old(dst[..]), 0, done)
    {
      SpreadStep(src, i, end - j);
      ghost var more := SpreadOctet(src[i], end - j);
      j := EncodeOne(src[i], dst, j, end);
      StoredTwice(old(dst[..]), done, more);
      done, i := done + more, i + 1;
    }
    SpreadEnds(src[i..], end - j);
    assert done + [] == done;
    dst[j] := 0;
  }

  lemma StoredNothing(m: seq<u8>)
    ensures Stored(m, 0, []) == m
  {
  }

  lemma SpreadStep(s: seq<u8>, i: nat, room: nat)
    requires i < |s| && s[i] != 0 && room > 0
    ensures Spread(s[i..], room)
         == SpreadOctet(s[i], room) + Spread(s[i + 1..], room - |SpreadOctet(s[i], room)|)
  {
    hide SpreadOctet;
    assert s[i..][1..] == s[i + 1..];
  }

  lemma SpreadEnds(s: seq<u8>, room: nat)
    requires s == [] || s[0] == 0 || room == 0
    ensures Spread(s, room) == []
  {
  }

  /** With room for it, the buffer holds the escaped string, a zero, and what it held beyond. */
  lemma EncodeFits(src: seq<u8>, before: seq<u8>, dstLen: nat)
    requires |Encoded(src)| < dstLen <= |before|
    ensures var cells := Spread(src, dstLen - 1);
            Stored(before, 0, cells)[|cells| := 0] == Encoded(src) + [0] + before[|Encoded(src)| + 1..]
  {
    hide Spread, Encoded, AllWritten, Stored;
    SpreadIsEncoding(src, dstLen - 1);
    StoredAll(before, Encoded(src));
  }

  // ---- Unescaping ----

  predicate Escape(s: seq<u8>, i: nat) {
    i + 2 < |s| && s[i] == 37 && IsHex(s[i + 1]) && IsHex(s[i + 2])
  }

  /** The octet that position i of s stands for, and the number of octets it takes. */
  function Meant(s: seq<u8>, i: nat, form: bool): (r: (u8, nat))
    requires i < |s|
    ensures 1 <= r.1 && i + r.1 <= |s|
  {
    if Escape(s, i) then (16 * HexValue(s[i + 1]) + HexValue(s[i + 2]), 3)
    else (if form && s[i] == 43 then 32 else s[i], 1)
  }

  predicate TwoDigits(x: u8, y: u8, hi: nat, lo: nat) {
    HasValue(x, hi) && HasValue(y, lo)
  }

  ghost predicate AnyDigits(x: u8, y: u8) {
    exists hi: nat, lo: nat :: TwoDigits(x, y, hi, lo)
  }

  ghost predicate DigitsOf(x: u8, y: u8, c: u8) {
    exists hi: nat, lo: nat :: TwoDigits(x, y, hi, lo) && c == 16 * hi + lo
  }

  /** Position i holds an escape, in either letter case, or a plus sign or plain octet, for the octet c. */
  ghost predicate StandsFor(s: seq<u8>, i: nat, form: bool, c: u8, taken: nat)
    requires i < |s|
  {
    if i + 2 < |s| && s[i] == 37 && AnyDigits(s[i + 1], s[i + 2]) then
      taken == 3 && DigitsOf(s[i + 1], s[i + 2], c)
    else
      taken == 1 && (if s[i] == 43 then (form ==> c == 32) && (!form ==> c == 43) else c == s[i])
  }

  lemma MeantStandsFor(s: seq<u8>, i: nat, form: bool)
    requires i < |s|
    ensures StandsFor(s, i, form, Meant(s, i, form).0, Meant(s, i, form).1)
  {
    hide HasValue, HexValue, IsHex;
    if i + 2 < |s| {
      HexValueIs(s[i + 1]);
      HexValueIs(s[i + 2]);
      if Escape(s, i) {
        assert TwoDigits(s[i + 1], s[i + 2], HexValue(s[i + 1]), HexValue(s[i + 2]));
      }
    }
  }

  function DecodedFrom(s: seq<u8>, i: nat, form: bool): (r: seq<u8>)
    requires i <= |s|
    ensures |r| <= |s| - i
    ensures r == [] <==> i == |s|
    decreases |s| - i
  {
    if i == |s| then [] else [Meant(s, i, form).0] + DecodedFrom(s, i + Meant(s, i, form).1, form)
  }

  function Decoded(s: seq<u8>, form: bool): (r: seq<u8>)
    ensures |r| <= |s|
  {
    DecodedFrom(s, 0, form)
  }

  /** One pass of the loop: the octet at read position i goes to write position j. */
  method DecodeOne(src: array<u8>, srcLen: nat, i: nat, dst: array<u8>, j: nat, form: bool) returns (next: nat)
    requires i < srcLen <= src.Length && j < dst.Length
    modifies dst
    ensures next == i + Meant(old(src[..srcLen]), i, form).1
    ensures dst[..] == old(dst[..])[j := Meant(old(src[..srcLen]), i, form).0]
    ensures StandsFor(old(src[..srcLen]), i, form, dst[j], next - i)
  {
    hide IsHex, HexValue, StandsFor;
    MeantStandsFor(src[..srcLen], i, form);
    next := i;
    if src[next] == 37 && next + 2 < srcLen && IsHex(src[next + 1]) && IsHex(src[next + 2]) {
      dst[j] := 16 * HexValue(src[next + 1]) + HexValue(src[next + 2]);
      next := next + 2;
    } else if form && src[next] == 43 {
      dst[j] := 32;
    } else {
      dst[j] := src[next];
    }
    next := next + 1;
  }

  /** What position i stands for only depends on what follows it. */
  lemma MeantLocal(s: seq<u8>, t: seq<u8>, i: nat, form: bool)
    requires i < |s| == |t| && s[i..] == t[i..]
    ensures Meant(s, i, form) == Meant(t, i, form)
  {
    hide HexValue, IsHex;
    assert forall k :: i <= k < |s| ==> s[k] == s[i..][k - i] == t[k];
  }

  /** The memory before with what fits of d before a zero written over its front. */
  function Terminated(before: seq<u8>, d: seq<u8>, dstLen: nat): (r: seq<u8>)
    requires 1 <= dstLen <= |before|
    ensures |r| == |before|
  {
    if |d| < dstLen then d + [0] + before[|d| + 1..] else d[..dstLen - 1] + [0] + before[dstLen..]
  }

  /** All of d and a zero, or as much of it as leaves room for the zero; what lies behind is not touched. */
  predicate CutToFit(before: seq<u8>, after: seq<u8>, d: seq<u8>, dstLen: nat)
    requires 1 <= dstLen <= |before| == |after|
  {
    && (|d| < dstLen ==> after[..|d|] == d && after[|d|] == 0 && after[|d| + 1..] == before[|d| + 1..])
    && (|d| >= dstLen ==> after[..dstLen - 1] == d[..dstLen - 1] && after[dstLen - 1] == 0
                          && after[dstLen..] == before[dstLen..])
  }

  lemma TerminatedMeans(before: seq<u8>, d: seq<u8>, dstLen: nat)
    requires 1 <= dstLen <= |before|
    ensures CutToFit(before, Terminated(before, d, dstLen), d, dstLen)
  {
  }

  /**
   src and dst may be one array, as when a request line is unescaped where it lies: the
   write position never passes the read position, so the result is the same.
   */
  method Decode(src: array<u8>, srcLen: nat, dst: array<u8>, dstLen: nat, form: bool) returns (res: int)
    requires srcLen <= src.Length && 1 <= dstLen <= dst.Length
    modifies dst
    ensures var d := Decoded(old(src[..srcLen]), form);
            && dst[..] == Terminated(old(dst[..]), d, dstLen)
            && res == (if |d| < dstLen then |d| else -1)
            && CutToFit(old(dst[..]), dst[..], d, dstLen)
  {
    hide *;
    var i, j: nat := 0, 0;
    ghost var s, was, d := src[..srcLen], dst[..], Decoded(src[..srcLen], form);
    DecodedStarts(s, form);
    MixedStart(d, was);
    while i < srcLen && j < dstLen - 1
      invariant j <= i <= srcLen && j < dstLen
      invariant j <= |d| && d[j..] == DecodedFrom(s, i, form)
      invariant dst[..] == Mixed(d, was, j)
      invariant src[..srcLen][i..] == s[i..]
      decreases srcLen - i
    {
      DecodedStep(s, i, form);
      MeantLocal(s, src[..srcLen], i, form);
      DropOne(d, j);
      MixedNext(d, was, j);
      ghost var now, here := src[..], i;
      i := DecodeOne(src, srcLen, i, dst, j, form);
      j := j + 1;
      StillToRead(now, src[..], srcLen, here, i, s);
    }
    DecodedEnds(s, i, form);
    TerminatedIs(was, d, dstLen, j);
    TerminatedMeans(was, d, dstLen);
    dst[j] := 0;
    res := if i >= srcLen then j else -1;
  }

  /** The first j octets of d in front of what was there before. */
  function Mixed(d: seq<u8>, was: seq<u8>, j: nat): (r: seq<u8>)
    requires j <= |d| && j <= |was|
    ensures |r| == |was|
  {
    d[..j] + was[j..]
  }

  lemma MixedStart(d: seq<u8>, was: seq<u8>)
    ensures Mixed(d, was, 0) == was
  {
  }

  lemma MixedNext(d: seq<u8>, was: seq<u8>, j: nat)
    requires j < |d| && j < |was|
    ensures Mixed(d, was, j)[j := d[j]] == Mixed(d, was, j + 1)
  {
  }

  lemma DropOne(d: seq<u8>, j: nat)
    requires j < |d|
    ensures d[j] == d[j..][0] && d[j + 1..] == d[j..][1..]
  {
  }

  lemma TerminatedIs(before: seq<u8>, d: seq<u8>, dstLen: nat, j: nat)
    requires j < dstLen <= |before| && j <= |d| && (d[j..] == [] || j == dstLen - 1)
    ensures Terminated(before, d, dstLen) == Mixed(d, before, j)[j := 0]
    ensures |d| < dstLen <==> d[j..] == []
    ensures d[j..] == [] ==> j == |d|
  {
  }

  /** Writing at or before the read position leaves what is still to be read. */
  lemma StillToRead(was: seq<u8>, now: seq<u8>, n: nat, i: nat, next: nat, s: seq<u8>)
    requires i < next <= n == |s| && n <= |was| == |now|
    requires was[..n][i..] == s[i..]
    requires forall k :: i < k < n ==> now[k] == was[k]
    ensures now[..n][next..] == s[next..]
  {
    assert forall k :: i <= k < n ==> was[k] == was[..n][i..][k - i] == s[k];
  }

  lemma DecodedStarts(s: seq<u8>, form: bool)
    ensures Decoded(s, form) == DecodedFrom(s, 0, form)
  {
  }

  lemma DecodedEnds(s: seq<u8>, i: nat, form: bool)
    requires i <= |s|
    ensures i == |s| <==> DecodedFrom(s, i, form) == []
  {
  }

  lemma DecodedStep(s: seq<u8>, i: nat, form: bool)
    requires i < |s|
    ensures DecodedFrom(s, i, form)[0] == Meant(s, i, form).0
    ensures DecodedFrom(s, i, form)[1..] == DecodedFrom(s, i + Meant(s, i, form).1, form)
  {
    hide Meant;
  }

  /** The request path, n octets and a zero, is unescaped where it lies, always in full. */
  method DecodeUri(uri: array<u8>, n: nat)
    requires n < uri.Length
    modifies uri
    ensures var d := Decoded(old(uri[..n]), false);
            uri[..] == d + [0] + old(uri[|d| + 1..])
  {
    var res := Decode(uri, n, uri, n + 1, false);
  }

  // ---- The round trip ----

  lemma {:induction false} DecodedAppend(a: seq<u8>, t: seq<u8>, i: nat, form: bool)
    requires i <= |t|
    ensures DecodedFrom(a + t, |a| + i, form) == DecodedFrom(t, i, form)
    decreases |t| - i
  {
    if i < |t| {
      assert Escape(a + t, |a| + i) == Escape(t, i);
      assert Meant(a + t, |a| + i, form) == Meant(t, i, form);
      DecodedAppend(a, t, i + Meant(t, i, form).1, form);
    }
  }

  lemma MeantOfEncoded(c: u8, t: seq<u8>, form: bool)
    ensures Meant(EncodeOctet(c) + t, 0, form) == (c, |EncodeOctet(c)|)
  {
    hide HexDigit, HexValue, IsHex;
    HexDigitValue(c / 16);
    HexDigitValue(c % 16);
    assert 16 * (c / 16) + c % 16 == c;
  }

  /** Unescaping an escaped string gives it back, whether or not plus signs mean blanks. */
  lemma {:induction false} RoundTrip(s: seq<u8>, form: bool)
    requires 0 !in s
    ensures Decoded(Encoded(s), form) == s
  {
    if s != [] {
      var c, t := EncodeOctet(s[0]), Encoded(s[1..]);
      MeantOfEncoded(s[0], t, form);
      DecodedAppend(c, t, 0, form);
      RoundTrip(s[1..], form);
    }
  }
}
