/**
 Incremental WebSocket framing (sections 5.2 and 5.3 of RFC 6455): the connection's
 byte buffer, the deliver loop over it, and the frame writer.
 */
module WebSocket {
  import opened Bytes
  import opened Memory
  import opened Options

  datatype LengthForm = Short | Medium | Long

  /** A frame as the peer means it; the key, if any, masks the payload on the wire. */
  datatype Frame = Frame(bits: u8, key: Option<seq<u8>>, form: LengthForm, payload: seq<u8>)

  datatype Delivered = Delivered(wsbits: u8, content: seq<u8>)

  datatype Parsed = Parsed(frames: seq<Delivered>, rest: seq<u8>)

  // ---- Masking ----

  function Bits(x: u8): bv8 {
    x as bv8
  }

  function Value(b: bv8): u8 {
    b as int
  }

  function XorBits(a: bv8, b: bv8): bv8 {
    a ^ b
  }

  function Xor8(x: u8, y: u8): u8 {
    Value(XorBits(Bits(x), Bits(y)))
  }

  lemma BitsOfValue(b: bv8)
    ensures Bits(Value(b)) == b
  {
  }

  lemma ValueOfBits(x: u8)
    ensures Value(Bits(x)) == x
  {
    hide Bits, Value;
    var b := ValueOnto(x);
    BitsOfValue(b);
  }

  lemma {:induction false} ValueOnto(x: u8) returns (b: bv8)
    ensures Value(b) == x
  {
    if x == 0 {
      b := 0;
    } else {
      b := ValueOnto(x - 1);
      OneMore(b);
      b := b + 1;
    }
  }

  lemma OneMore(b: bv8)
    requires Value(b) < 0xff
    ensures Value(b + 1) == Value(b) + 1
  {
  }

  lemma BitsTwice(a: bv8, b: bv8)
    ensures XorBits(XorBits(a, b), b) == a
  {
  }

  lemma XorTwice(x: u8, y: u8)
    ensures Xor8(Xor8(x, y), y) == x
  {
    hide Bits, Value, XorBits;
    var a, b := Bits(x), Bits(y);
    BitsOfValue(XorBits(a, b));
    ValueOfBits(x);
    BitsTwice(a, b);
  }

  lemma XorIs(x: u8, y: u8)
    ensures Xor8(x, y) as bv8 == (x as bv8) ^ (y as bv8)
  {
    BitsOfValue((x as bv8) ^ (y as bv8));
  }

  function Masked(s: seq<u8>, key: seq<u8>): (r: seq<u8>)
    requires |key| == 4
    ensures |r| == |s|
  {
    seq(|s|, i requires 0 <= i < |s| => Xor8(s[i], key[i % 4]))
  }

  lemma MaskedTwice(s: seq<u8>, key: seq<u8>)
    requires |key| == 4
    ensures Masked(Masked(s, key), key) == s
  {
    forall i | 0 <= i < |s|
      ensures Masked(Masked(s, key), key)[i] == s[i]
    {
      hide Xor8;
      XorTwice(s[i], key[i % 4]);
    }
  }

  // ---- Reading a header off the front of the buffer ----

  function MaskLen(b: seq<u8>): nat
    requires 2 <= |b|
  {
    if b[1] >= 128 then 4 else 0
  }

  /** Octets of header at the front of b; 0 while the header is incomplete. */
  function HeaderLen(b: seq<u8>): (n: nat)
    ensures n == 0 || (2 <= |b| && n >= 2 + MaskLen(b))
  {
    if |b| < 2 then 0
    else if b[1] % 128 < 126 && |b| >= MaskLen(b) then 2 + MaskLen(b)
    else if b[1] % 128 == 126 && |b| >= 4 + MaskLen(b) then 4 + MaskLen(b)
    else if |b| >= 10 + MaskLen(b) then 10 + MaskLen(b)
    else 0
  }

  /** The declared payload length. Of a 64-bit length only the low word is used. */
  function DataLen(b: seq<u8>): nat {
    if HeaderLen(b) == 0 then 0
    else if HeaderLen(b) == 2 + MaskLen(b) then b[1] % 128
    else if HeaderLen(b) == 4 + MaskLen(b) then 0x100 * b[2] + b[3]
    else Num32(b[9], b[8], b[7], b[6])
  }

  predicate Complete(b: seq<u8>) {
    0 < HeaderLen(b) + DataLen(b) <= |b|
  }

  /** No length field that a signed 32-bit frame length cannot hold. */
  predicate Sized(b: seq<u8>) {
    DataLen(b) < 0x8000_0000 - 14
  }

  function Content(b: seq<u8>): seq<u8>
    requires Complete(b)
  {
    var wire := b[HeaderLen(b)..HeaderLen(b) + DataLen(b)];
    if MaskLen(b) == 0 then wire else Masked(wire, b[HeaderLen(b) - 4..HeaderLen(b)])
  }

  function After(b: seq<u8>): (r: seq<u8>)
    requires Complete(b)
    ensures |r| < |b|
  {
    b[HeaderLen(b) + DataLen(b)..]
  }

  /** Every complete frame at the front of b, and what is left. */
  function Parse(b: seq<u8>): Parsed
    decreases |b|
  {
    if !Complete(b) then Parsed([], b)
    else
      var p := Parse(After(b));
      Parsed([Delivered(b[0], Content(b))] + p.frames, p.rest)
  }

  lemma ParseStep(b: seq<u8>)
    ensures !Complete(b) ==> Parse(b) == Parsed([], b)
    ensures Complete(b) ==> Parse(b).rest == Parse(After(b)).rest
    ensures Complete(b) ==> Parse(b).frames == [Delivered(b[0], Content(b))] + Parse(After(b)).frames
  {
    hide Content, Complete;
  }

  // ---- What sections 5.2 and 5.3 of RFC 6455 say of the octets ----

  /** The octets begin with a header of that many octets, for a payload of n; of a long length the low word counts. */
  predicate Announces(b: seq<u8>, header: nat, n: nat) {
    && |b| >= 2
    && var key := if b[1] >= 128 then 4 else 0;
       || (b[1] % 128 < 126 && header == 2 + key && n == b[1] % 128)
       || (b[1] % 128 == 126 && |b| >= 4 && header == 4 + key && n == 0x100 * (b[2] as int) + b[3] as int)
       || (b[1] % 128 == 127 && |b| >= 10 && header == 10 + key
           && n == Num32(b[9], b[8], b[7], b[6]))
  }

  /** The content is what follows the header, octet i under octet i modulo 4 of the key, if there is one. */
  predicate Carries(b: seq<u8>, header: nat, content: seq<u8>) {
    && 2 <= header && header + |content| <= |b|
    && (b[1] < 128 ==> content == b[header..header + |content|])
    && (b[1] >= 128 ==>
          header >= 6 && forall i :: 0 <= i < |content| ==>
            (content[i] as bv8) == (b[header + i] as bv8) ^ (b[header - 4 + i % 4] as bv8))
  }

  lemma CompleteAnnounces(b: seq<u8>)
    requires Complete(b)
    ensures Announces(b, HeaderLen(b), DataLen(b))
  {
  }

  lemma AnnouncedComplete(b: seq<u8>, header: nat, n: nat)
    requires Announces(b, header, n)
    ensures Complete(b) <==> header + n <= |b|
    ensures Complete(b) ==> header == HeaderLen(b) && n == DataLen(b)
  {
  }

  lemma FrontFrame(b: seq<u8>)
    ensures Complete(b) <==> exists h: nat, n: nat :: Announces(b, h, n) && h + n <= |b|
    ensures Complete(b) ==> Announces(b, HeaderLen(b), |Content(b)|) && Carries(b, HeaderLen(b), Content(b))
                            && After(b) == b[HeaderLen(b) + |Content(b)|..]
  {
    hide Announces, Carries, HeaderLen, DataLen;
    if Complete(b) {
      CompleteAnnounces(b);
      ContentCarried(b);
    }
    forall h: nat, n: nat | Announces(b, h, n) && h + n <= |b|
      ensures Complete(b)
    {
      AnnouncedComplete(b, h, n);
    }
  }

  lemma ContentCarried(b: seq<u8>)
    requires Complete(b)
    ensures |Content(b)| == DataLen(b) && Carries(b, HeaderLen(b), Content(b))
  {
    hide HeaderLen, DataLen, Xor8;
    HeaderPositive(b);
    var h, c := HeaderLen(b), Content(b);
    forall i | b[1] >= 128 && 0 <= i < |c|
      ensures (c[i] as bv8) == (b[h + i] as bv8) ^ (b[h - 4 + i % 4] as bv8)
    {
      XorIs(b[h + i], b[h - 4 + i % 4]);
    }
  }

  ghost predicate Sane(b: seq<u8>)
    decreases |b|
  {
    Sized(b) && (Complete(b) ==> Sane(After(b)))
  }

  // ---- More input never changes a frame that is already complete ----

  lemma HeaderStable(b: seq<u8>, c: seq<u8>)
    requires 0 < HeaderLen(b) <= |b|
    ensures HeaderLen(b + c) == HeaderLen(b) && DataLen(b + c) == DataLen(b) && MaskLen(b + c) == MaskLen(b)
  {
    hide Num32;
    assert (b + c)[..|b|] == b;
  }

  lemma FrameStable(b: seq<u8>, c: seq<u8>)
    requires Complete(b)
    ensures Complete(b + c) && (b + c)[0] == b[0] && Content(b + c) == Content(b) && After(b + c) == After(b) + c
  {
    hide Masked, Num32, HeaderLen, DataLen, MaskLen;
    HeaderPositive(b);
    HeaderStable(b, c);
    var h, n := HeaderLen(b), HeaderLen(b) + DataLen(b);
    assert (b + c)[h..n] == b[h..n];
    if MaskLen(b) != 0 {
      assert (b + c)[h - 4..h] == b[h - 4..h];
    }
  }

  lemma HeaderPositive(b: seq<u8>)
    requires Complete(b)
    ensures 0 < HeaderLen(b) && (MaskLen(b) == 0 || (MaskLen(b) == 4 && 6 <= HeaderLen(b)))
  {
    hide Num32;
  }

  lemma {:induction false} ParseChunk(b: seq<u8>, c: seq<u8>)
    ensures Parse(b + c).frames == Parse(b).frames + Parse(Parse(b).rest + c).frames
    ensures Parse(b + c).rest == Parse(Parse(b).rest + c).rest
    decreases |b|
  {
    if Complete(b) {
      FrameStable(b, c);
      ParseChunk(After(b), c);
    }
  }

  /** The buffer and the frames handed over after a list of chunks. */
  function Feed(start: Parsed, chunks: seq<seq<u8>>): Parsed
    decreases |chunks|
  {
    if chunks == [] then start
    else
      var p := Parse(start.rest + chunks[0]);
      Feed(Parsed(start.frames + p.frames, p.rest), chunks[1..])
  }

  /** Chunking does not matter: feeding piecewise is parsing the whole. */
  lemma {:induction false} ChunkingIrrelevant(start: Parsed, chunks: seq<seq<u8>>)
    requires !Complete(start.rest)
    ensures var whole := Parse(start.rest + Concat(chunks));
            Feed(start, chunks) == Parsed(start.frames + whole.frames, whole.rest)
    decreases |chunks|
  {
    hide Parse, Complete;
    if chunks == [] {
      assert start.rest + Concat(chunks) == start.rest;
      ParseStep(start.rest);
    } else {
      var b := start.rest + chunks[0];
      var p := Parse(b);
      assert start.rest + Concat(chunks) == b + Concat(chunks[1..]);
      ParseChunk(b, Concat(chunks[1..]));
      RestIncomplete(b);
      ChunkingIrrelevant(Parsed(start.frames + p.frames, p.rest), chunks[1..]);
    }
  }

  lemma NothingComplete()
    ensures !Complete([])
  {
  }

  lemma {:induction false} RestIncomplete(b: seq<u8>)
    ensures !Complete(Parse(b).rest)
    decreases |b|
  {
    if Complete(b) {
      RestIncomplete(After(b));
    }
  }

  // ---- The wire form of a frame ----

  predicate Encodable(f: Frame) {
    && (f.key.Some? ==> |f.key.value| == 4)
    && match f.form
       case Short => |f.payload| < 126
       case Medium => |f.payload| <= 0xFFFF
       case Long => |f.payload| < 0x8000_0000 - 14
  }

  function LengthOctets(f: Frame): (s: seq<u8>)
    requires Encodable(f)
    ensures |s| == if f.form.Short? then 1 else if f.form.Medium? then 3 else 9
  {
    var flag := if f.key.Some? then 128 else 0;
    var n := |f.payload|;
    match f.form
    case Short => [flag + n]
    case Medium => [flag + 126, n / 0x100, n % 0x100]
    case Long => [flag + 127] + Be32(0) + Be32(n)
  }

  function KeyOctets(f: Frame): seq<u8> {
    if f.key.Some? then f.key.value else []
  }

  function Wire(f: Frame): seq<u8>
    requires Encodable(f)
  {
    if f.key.Some? then Masked(f.payload, f.key.value) else f.payload
  }

  function Encode(f: Frame): seq<u8>
    requires Encodable(f)
  {
    [f.bits] + LengthOctets(f) + KeyOctets(f) + Wire(f)
  }

  lemma HeaderOfEncode(f: Frame, c: seq<u8>)
    requires Encodable(f)
    ensures var b := [f.bits] + LengthOctets(f) + KeyOctets(f) + c;
            HeaderLen(b) == 1 + |LengthOctets(f)| + |KeyOctets(f)| && DataLen(b) == |f.payload|
            && MaskLen(b) == |KeyOctets(f)|
  {
    var b := [f.bits] + LengthOctets(f) + KeyOctets(f) + c;
    LengthOctetsAt(f, c);
    match f.form
    case Short =>
    case Medium =>
    case Long =>
      hide Num32, Octet, KeyOctets;
      Num32OfOctets(|f.payload|);
  }

  lemma LengthOctetsAt(f: Frame, c: seq<u8>)
    requires Encodable(f)
    ensures var b := [f.bits] + LengthOctets(f) + KeyOctets(f) + c;
            && |b| >= 1 + |LengthOctets(f)| + |KeyOctets(f)|
            && b[1] == LengthOctets(f)[0]
            && (f.form.Medium? ==> b[2] == |f.payload| / 0x100 && b[3] == |f.payload| % 0x100)
            && (f.form.Long? ==> b[6] == Octet(|f.payload|, 3) && b[7] == Octet(|f.payload|, 2)
                                 && b[8] == Octet(|f.payload|, 1) && b[9] == Octet(|f.payload|, 0))
  {
    hide Octet, KeyOctets;
    var b := [f.bits] + LengthOctets(f) + KeyOctets(f) + c;
    forall k | 0 <= k < |LengthOctets(f)|
      ensures b[1 + k] == LengthOctets(f)[k]
    {
    }
    if f.form.Medium? {
      assert b[1 + 1] == LengthOctets(f)[1] && b[1 + 2] == LengthOctets(f)[2];
    } else if f.form.Long? {
      assert b[1 + 5] == LengthOctets(f)[5] && b[1 + 6] == LengthOctets(f)[6];
      assert b[1 + 7] == LengthOctets(f)[7] && b[1 + 8] == LengthOctets(f)[8];
    }
  }

  /** The front frame of the stream is delivered unmasked, exactly once, and removed. */
  lemma ParseEncoded(f: Frame, c: seq<u8>)
    requires Encodable(f)
    ensures Complete(Encode(f) + c)
    ensures Content(Encode(f) + c) == f.payload && (Encode(f) + c)[0] == f.bits && After(Encode(f) + c) == c
  {
    var head := [f.bits] + LengthOctets(f) + KeyOctets(f);
    var b := Encode(f) + c;
    assert b == head + (Wire(f) + c);
    HeaderOfEncode(f, Wire(f) + c);
    assert b[|head|..|head| + |f.payload|] == Wire(f);
    if f.key.Some? {
      assert b[|head| - 4..|head|] == f.key.value;
      MaskedTwice(f.payload, f.key.value);
    }
  }

  lemma KeyOfEncode(f: Frame, c: seq<u8>)
    requires Encodable(f)
    ensures var b := Encode(f) + c;
            && |b| >= 2 && b[0] == f.bits && (b[1] >= 128 <==> f.key.Some?)
            && (f.key.Some? ==> 4 <= HeaderLen(b) <= |b| && b[HeaderLen(b) - 4..HeaderLen(b)] == f.key.value)
  {
    hide LengthOctets;
    var head := [f.bits] + LengthOctets(f) + KeyOctets(f);
    var b := Encode(f) + c;
    assert b == head + (Wire(f) + c);
    HeaderOfEncode(f, Wire(f) + c);
    if f.key.Some? {
      assert b[|head| - 4..|head|] == head[|head| - 4..] == f.key.value;
    }
  }

  /** Every frame on the wire announces its payload and carries it. */
  lemma EncodeCarries(f: Frame, c: seq<u8>)
    requires Encodable(f)
    ensures var b := Encode(f) + c;
            exists header: nat :: Announces(b, header, |f.payload|) && Carries(b, header, f.payload)
                             && b[0] == f.bits && b[header + |f.payload|..] == c
                             && (b[1] >= 128 <==> f.key.Some?)
                             && (f.key.Some? ==> b[header - 4..header] == f.key.value)
  {
    hide Announces, Carries, HeaderLen, DataLen, Encode, Encodable;
    var b := Encode(f) + c;
    ParseEncoded(f, c);
    CompleteAnnounces(b);
    ContentCarried(b);
    KeyOfEncode(f, c);
  }

  /** A proper prefix of a frame is never taken for a complete one. */
  lemma PrefixIncomplete(f: Frame, t: seq<u8>)
    requires Encodable(f) && t < Encode(f)
    ensures !Complete(t)
  {
    if Complete(t) {
      var c := Encode(f)[|t|..];
      assert t + c == Encode(f) == Encode(f) + [];
      FrameStable(t, c);
      ParseEncoded(f, []);
      assert false;
    }
  }

  function EncodeAll(fs: seq<Frame>): seq<u8>
    requires forall f :: f in fs ==> Encodable(f)
  {
    if fs == [] then [] else Encode(fs[0]) + EncodeAll(fs[1..])
  }

  function Meant(fs: seq<Frame>): (ds: seq<Delivered>)
    ensures |ds| == |fs|
  {
    seq(|fs|, i requires 0 <= i < |fs| => Delivered(fs[i].bits, fs[i].payload))
  }

  lemma {:induction false} ParseStream(fs: seq<Frame>, t: seq<u8>)
    requires forall f :: f in fs ==> Encodable(f)
    requires !Complete(t)
    ensures Parse(EncodeAll(fs) + t) == Parsed(Meant(fs), t)
  {
    hide Parse, Complete, Encode, Encodable;
    if fs == [] {
      assert EncodeAll(fs) + t == t;
      ParseStep(t);
    } else {
      ParseHead(fs, t);
      ParseStream(fs[1..], t);
      assert Meant(fs) == [Delivered(fs[0].bits, fs[0].payload)] + Meant(fs[1..]);
    }
  }

  lemma ParseHead(fs: seq<Frame>, t: seq<u8>)
    requires fs != [] && forall f :: f in fs ==> Encodable(f)
    ensures Parse(EncodeAll(fs) + t).frames
         == [Delivered(fs[0].bits, fs[0].payload)] + Parse(EncodeAll(fs[1..]) + t).frames
    ensures Parse(EncodeAll(fs) + t).rest == Parse(EncodeAll(fs[1..]) + t).rest
  {
    hide Encode, Encodable, Parse, Content, After, Complete;
    assert EncodeAll(fs) + t == Encode(fs[0]) + (EncodeAll(fs[1..]) + t);
    ParseEncoded(fs[0], EncodeAll(fs[1..]) + t);
    ParseStep(EncodeAll(fs) + t);
  }

  /**
   Any chunks whose concatenation is whole frames followed by part of another one: what
   is handed over is those frames in order, and the part stays buffered.
   */
  lemma Reassembly(fs: seq<Frame>, next: Frame, t: seq<u8>, chunks: seq<seq<u8>>)
    requires forall f :: f in fs ==> Encodable(f)
    requires Encodable(next) && t < Encode(next)
    requires Concat(chunks) == EncodeAll(fs) + t
    ensures Feed(Parsed([], []), chunks) == Parsed(Meant(fs), t)
  {
    PrefixIncomplete(next, t);
    ParseStream(fs, t);
    ChunkingIrrelevant(Parsed([], []), chunks);
    assert [] + Concat(chunks) == Concat(chunks);
  }

  // ---- A stream of legal frames never declares a length the loop cannot hold ----

  lemma PrefixSized(f: Frame, t: seq<u8>)
    requires Encodable(f) && t <= Encode(f)
    ensures Sized(t)
  {
    hide Encode, LengthOctets, KeyOctets, Wire;
    if 0 < HeaderLen(t) <= |t| {
      var c := Encode(f)[|t|..];
      assert t + c == Encode(f);
      HeaderStable(t, c);
      DataLenOfEncode(f, []);
      assert Encode(f) + [] == Encode(f);
    } else {
      LongHeadersWhole(t);
    }
  }

  /** Only the short form is ever taken for a header before all of it is there. */
  lemma LongHeadersWhole(t: seq<u8>)
    requires HeaderLen(t) == 0 || |t| < HeaderLen(t)
    ensures DataLen(t) < 126
  {
    hide Num32;
  }

  lemma DataLenOfEncode(f: Frame, c: seq<u8>)
    requires Encodable(f)
    ensures DataLen(Encode(f) + c) == |f.payload|
  {
    HeaderOfEncode(f, Wire(f) + c);
    assert Encode(f) + c == [f.bits] + LengthOctets(f) + KeyOctets(f) + (Wire(f) + c);
  }

  lemma {:induction false} PrefixSane(fs: seq<Frame>, next: Frame, t: seq<u8>, b: seq<u8>)
    requires forall f :: f in fs ==> Encodable(f)
    requires Encodable(next) && t < Encode(next)
    requires b <= EncodeAll(fs) + t
    ensures Sane(b)
    decreases |fs|
  {
    hide Complete, Sized, Encode, Encodable, After;
    if fs == [] {
      PrefixIncomplete(next, b);
      PrefixSized(next, b);
    } else {
      var e, more := Encode(fs[0]), EncodeAll(fs[1..]) + t;
      assert EncodeAll(fs) + t == e + more;
      if |b| < |e| {
        assert b == (e + more)[..|b|] == e[..|b|];
        PrefixIncomplete(fs[0], b);
        PrefixSized(fs[0], b);
      } else {
        var c := b[|e|..];
        assert b == e + c;
        ParseEncoded(fs[0], c);
        FrameSized(fs[0], c);
        PrefixSane(fs[1..], next, t, c);
      }
    }
  }

  lemma FrameSized(f: Frame, c: seq<u8>)
    requires Encodable(f)
    ensures Sized(Encode(f) + c)
  {
    hide Encode, DataLen;
    DataLenOfEncode(f, c);
  }

  /** Handing over what is complete keeps the rest of the stream sane. */
  lemma {:induction false} SaneRest(b: seq<u8>, c: seq<u8>)
    requires Sane(b + c)
    ensures Sane(Parse(b).rest + c)
    decreases |b|
  {
    hide Complete, Sized;
    if Complete(b) {
      FrameStable(b, c);
      SaneRest(After(b), c);
    }
  }

  // ---- The buffer and the loop ----

  class IoBuf {
    var buf: array<u8>
    var len: nat

    ghost predicate Valid()
      reads this
    {
      len <= buf.Length
    }

    ghost function Contents(): seq<u8>
      reads this, buf
      requires Valid()
    {
      buf[..len]
    }

    constructor ()
      ensures Valid() && Contents() == [] && fresh(buf)
    {
      buf := new u8[0];
      len := 0;
    }

    /** Appends the data, growing the buffer by a fifth when it would fill up; realloc may fail. */
    method Spool(data: seq<u8>, reallocOk: bool) returns (n: nat)
      requires Valid()
      modifies this, buf
      ensures Valid() && (buf == old(buf) || fresh(buf))
      ensures n == |data| || n == 0
      ensures n == 0 && data != [] ==> !reallocOk
      ensures Contents() == old(Contents()) + data[..n]
    {
      n := |data|;
      if data == [] {
      } else if len + |data| < buf.Length {
        MemCopy(buf, len, data);
        len := len + |data|;
      } else if reallocOk {
        var size := ((len + |data|) as real * 1.2).Floor;
        assert size >= len + |data|;
        var p := new u8[size];
        MemCopy(p, 0, buf[..len]);
        MemCopy(p, len, data);
        buf := p;
        len := len + |data|;
      } else {
        n := 0;
      }
    }

    /** memmove of what follows the first n octets. */
    method DiscardLeading(n: int)
      requires Valid()
      modifies this`len, buf
      ensures Valid()
      ensures Contents() == if 0 <= n <= old(len) then old(Contents())[n..] else old(Contents())
    {
      if 0 <= n <= len {
        var i, total := 0, len - n;
        while i < total
          invariant 0 <= i <= total == len - n
          invariant forall k :: 0 <= k < i ==> buf[k] == old(buf[k + n])
          invariant forall k :: i <= k < buf.Length ==> buf[k] == old(buf[k])
        {
          buf[i] := buf[i + n];
          i := i + 1;
        }
        len := len - n;
      }
    }
  }

  class Connection {
    const io: IoBuf
    var handled: seq<Delivered>

    ghost predicate Valid()
      reads this, io
    {
      io.Valid()
    }

    constructor ()
      ensures Valid() && fresh(io) && fresh(io.buf) && io.Contents() == [] && handled == []
    {
      io := new IoBuf();
      handled := [];
    }

    /** Removes the mask in place. */
    method Unmask(header: nat, n: nat)
      requires Valid() && 4 <= header && header + n <= io.len
      modifies io.buf
      ensures io.buf[..header] == old(io.buf[..header])
      ensures io.buf[header..header + n] == Masked(old(io.buf[header..header + n]), old(io.buf[header - 4..header]))
      ensures io.buf[header + n..] == old(io.buf[header + n..])
    {
      hide Xor8;
      var i := 0;
      while i < n
        invariant 0 <= i <= n
        invariant forall k :: 0 <= k < header ==> io.buf[k] == old(io.buf[k])
        invariant forall k :: header + i <= k < io.buf.Length ==> io.buf[k] == old(io.buf[k])
        invariant forall k :: 0 <= k < i ==>
                    io.buf[header + k] == Xor8(old(io.buf[header + k]), old(io.buf[header - 4 + k % 4]))
      {
        io.buf[i + header] := Xor8(io.buf[i + header], io.buf[header - 4 + i % 4]);
        i := i + 1;
      }
      ghost var key, wire := old(io.buf[header - 4..header]), old(io.buf[header..header + n]);
      forall k | 0 <= k < n
        ensures io.buf[header + k] == Masked(wire, key)[k]
      {
        assert wire[k] == old(io.buf[header + k]) && key[k % 4] == old(io.buf[header - 4 + k % 4]);
      }
    }

    /** What the octets at the front say of the header and of the payload. */
    method ReadHeader() returns (header: nat, data: nat)
      requires Valid()
      ensures header == HeaderLen(io.Contents()) && data == DataLen(io.Contents())
    {
      header, data := 0, 0;
      if io.len >= 2 {
        var n := io.buf[1] % 128;
        var mask := if io.buf[1] >= 128 then 4 else 0;
        if n < 126 && io.len >= mask {
          header, data := 2 + mask, n;
        } else if n == 126 && io.len >= 4 + mask {
          header, data := 4 + mask, 0x100 * (io.buf[2] as int) + io.buf[3] as int;
        } else if io.len >= 10 + mask {
          header, data := 10 + mask, Num32(io.buf[9], io.buf[8], io.buf[7], io.buf[6]);
        }
      }
    }

    /** The payload of the complete frame at the front, unmasked where it lies. */
    method Payload(header: nat, data: nat) returns (content: seq<u8>)
      requires Valid() && Complete(io.Contents())
      requires header == HeaderLen(io.Contents()) && data == DataLen(io.Contents())
      modifies io.buf
      ensures content == Content(old(io.Contents()))
      ensures io.buf[header + data..] == old(io.buf[header + data..])
    {
      hide HeaderLen, DataLen, Masked, Xor8;
      HeaderPositive(io.Contents());
      SliceOfPrefix(io.buf[..], io.len, header, header + data);
      if io.buf[1] >= 128 {
        SliceOfPrefix(io.buf[..], io.len, header - 4, header);
        Unmask(header, data);
      }
      content := io.buf[header..header + data];
    }

    /** Hands over the front frame if it is complete, and drops it from the buffer. */
    method DeliverFrame() returns (buffered: bool)
      requires Valid() && Sized(io.Contents())
      modifies this, io, io.buf
      ensures Valid() && io.buf == old(io.buf)
      ensures buffered == Complete(old(io.Contents()))
      ensures !buffered ==> io.Contents() == old(io.Contents()) && handled == old(handled)
      ensures buffered ==> io.Contents() == After(old(io.Contents()))
                           && handled == old(handled) + [Delivered(old(io.Contents())[0], Content(old(io.Contents())))]
      ensures var b := old(io.Contents());
              buffered <==> exists h: nat, n: nat :: Announces(b, h, n) && h + n <= |b|
      ensures buffered ==>
                var b := old(io.Contents());
                exists h: nat, c :: Announces(b, h, |c|) && Carries(b, h, c) && io.Contents() == b[h + |c|..]
                                    && handled == old(handled) + [Delivered(b[0], c)]
    {
      hide HeaderLen, DataLen, MaskLen, Content, Announces, Carries;
      FrontFrame(io.Contents());
      var header, data := ReadHeader();
      buffered := 0 < header + data <= io.len;
      if buffered {
        var bits := io.buf[0];
        var content := Payload(header, data);
        SameAfter(io.buf[..], old(io.buf[..]), io.len, header + data);
        handled := handled + [Delivered(bits, content)];
        io.DiscardLeading(header + data);
      }
    }

    /** Spools what arrived and runs the deliver loop until no complete frame is left. */
    method Receive(chunk: seq<u8>)
      requires Valid() && Sane(io.Contents() + chunk)
      modifies this, io, io.buf
      ensures Valid() && (io.buf == old(io.buf) || fresh(io.buf))
      ensures Parsed(handled, io.Contents()) == Feed(Parsed(old(handled), old(io.Contents())), [chunk])
    {
      hide Parse, Complete, Sized, Content, HeaderLen, DataLen, Sane, Feed;
      ghost var b := io.Contents() + chunk;
      var n := io.Spool(chunk, true);
      assert io.Contents() == b;
      DeliverAll();
      FeedOne(Parsed(old(handled), old(io.Contents())), chunk);
    }

    /** The deliver loop. */
    method DeliverAll()
      requires Valid() && Sane(io.Contents())
      modifies this, io, io.buf
      ensures Valid() && io.buf == old(io.buf)
      ensures handled == old(handled) + Parse(old(io.Contents())).frames
      ensures io.Contents() == Parse(old(io.Contents())).rest
    {
      hide Parse, Complete, Sized, Content, HeaderLen, DataLen;
      ghost var b := io.Contents();
      var more := true;
      while more
        invariant Valid() && io.buf == old(io.buf)
        invariant Sane(io.Contents())
        invariant handled + Parse(io.Contents()).frames == old(handled) + Parse(b).frames
        invariant Parse(io.Contents()).rest == Parse(b).rest
        invariant !more ==> !Complete(io.Contents())
        decreases |io.Contents()|, more
      {
        ParseStep(io.Contents());
        more := DeliverFrame();
      }
      ParseStep(io.Contents());
    }
  }

  lemma SliceOfPrefix(s: seq<u8>, n: nat, i: nat, j: nat)
    requires i <= j <= n <= |s|
    ensures s[..n][i..j] == s[i..j]
  {
  }

  lemma SameAfter(s: seq<u8>, t: seq<u8>, n: nat, i: nat)
    requires i <= n <= |s| == |t| && s[i..] == t[i..]
    ensures s[..n][i..] == t[..n][i..]
  {
    assert s[..n][i..] == s[i..][..n - i];
  }

  lemma FeedOne(start: Parsed, chunk: seq<u8>)
    ensures Feed(start, [chunk])
         == Parsed(start.frames + Parse(start.rest + chunk).frames, Parse(start.rest + chunk).rest)
  {
    hide Parse;
    assert [chunk][1..] == [];
  }

  /**
   A new connection fed the stream in any chunks whatever: it hands over exactly the whole
   frames, in order and unmasked, and keeps the part of the next one.
   */
  method ReceiveAll(chunks: seq<seq<u8>>, ghost fs: seq<Frame>, ghost next: Frame, ghost t: seq<u8>)
    returns (handled: seq<Delivered>, kept: seq<u8>)
    requires forall f :: f in fs ==> Encodable(f)
    requires Encodable(next) && t < Encode(next)
    requires Concat(chunks) == EncodeAll(fs) + t
    ensures handled == Meant(fs) && kept == t
  {
    hide Parse, Complete, Sane, Encode, Encodable, EncodeAll, Feed;
    var c := new Connection();
    var i := 0;
    ParseStep([]);
    NothingComplete();
    while i < |chunks|
      invariant i <= |chunks|
      invariant c.Valid() && fresh(c) && fresh(c.io) && fresh(c.io.buf)
      invariant Parsed(c.handled, c.io.Contents()) == Parse(Concat(chunks[..i]))
    {
      ghost var before := Concat(chunks[..i]);
      NextChunkSane(chunks, i, fs, next, t);
      FeedOne(Parsed(c.handled, c.io.Contents()), chunks[i]);
      ParseChunk(before, chunks[i]);
      ConcatSnoc(chunks[..i], chunks[i]);
      assert chunks[..i + 1] == chunks[..i] + [chunks[i]];
      c.Receive(chunks[i]);
      i := i + 1;
    }
    assert chunks[..i] == chunks;
    PrefixIncomplete(next, t);
    ParseStream(fs, t);
    handled, kept := c.handled, c.io.buf[..c.io.len];
  }

  lemma NextChunkSane(chunks: seq<seq<u8>>, i: nat, fs: seq<Frame>, next: Frame, t: seq<u8>)
    requires i < |chunks| && (forall f :: f in fs ==> Encodable(f))
    requires Encodable(next) && t < Encode(next)
    requires Concat(chunks) == EncodeAll(fs) + t
    ensures Sane(Parse(Concat(chunks[..i])).rest + chunks[i])
  {
    hide Parse, Sane, Encode, Encodable, EncodeAll;
    var so := Concat(chunks[..i]) + chunks[i];
    ConcatSnoc(chunks[..i], chunks[i]);
    assert chunks[..i + 1] == chunks[..i] + [chunks[i]];
    ConcatUpTo(chunks, i + 1);
    PrefixSane(fs, next, t, so);
    SaneRest(Concat(chunks[..i]), chunks[i]);
  }

  /** The frame the writer produces: final, unmasked, with the shortest length form. */
  function Written(opcode: int, data: seq<u8>): Frame {
    Frame(0x80 + opcode % 16, None,
          if |data| < 126 then Short else if |data| <= 0xFFFF then Medium else Long, data)
  }

  method WriteFrame(out: IoBuf, opcode: int, data: seq<u8>, reallocOk: bool) returns (retval: int)
    requires out.Valid() && |data| < 0x8000_0000 - 14
    modifies out, out.buf
    ensures out.Valid() && Encodable(Written(opcode, data))
    ensures retval == 0 || retval == |Encode(Written(opcode, data))|
    ensures reallocOk ==> retval != 0
    ensures retval != 0 ==> out.Contents() == old(out.Contents()) + Encode(Written(opcode, data))
    ensures retval == 0 ==> out.Contents() == old(out.Contents())
    ensures ShortestFrame(Encode(Written(opcode, data)), opcode, data)
  {
    var copy := [0x80 + opcode % 16];
    var n: u32 := |data|;
    if n < 126 {
      copy := copy + [n];
    } else if n <= 0xFFFF {
      copy := copy + [126, n / 0x100, n % 0x100];
    } else {
      copy := copy + [127] + Be32(n / 0x1_0000_0000) + Be32(n % 0x1_0000_0000);
    }
    copy := copy + data;
    assert copy == Encode(Written(opcode, data));
    WrittenIsShortest(opcode, data);
    hide Encode, ShortestFrame, Be32;
    retval := out.Spool(copy, reallocOk);
    assert copy[..|copy|] == copy;
  }

  /** An unmasked frame of these octets, with no more of a header than their number needs. */
  predicate ShortestFrame(w: seq<u8>, opcode: int, data: seq<u8>) {
    var header := if |data| < 126 then 2 else if |data| <= 0xFFFF then 4 else 10;
    && Announces(w, header, |data|) && w[1] < 128 && w[0] == 0x80 + opcode % 16
    && |w| == header + |data| && w[header..] == data
  }

  lemma WrittenIsShortest(opcode: int, data: seq<u8>)
    requires |data| < 0x8000_0000 - 14
    ensures Encodable(Written(opcode, data)) && ShortestFrame(Encode(Written(opcode, data)), opcode, data)
  {
    hide Announces, HeaderLen, DataLen, LengthOctets;
    var f := Written(opcode, data);
    var w := Encode(f);
    assert w + [] == w;
    KeyOfEncode(f, []);
    ParseEncoded(f, []);
    CompleteAnnounces(w);
    HeaderOfEncode(f, data);
    assert w == [f.bits] + LengthOctets(f) + KeyOctets(f) + data;
  }

  /** Whatever was written is delivered, in any of the three length forms. */
  lemma WriteThenDeliver(opcode: int, data: seq<u8>)
    requires |data| < 0x8000_0000 - 14
    ensures Encodable(Written(opcode, data))
    ensures Parse(Encode(Written(opcode, data))) == Parsed([Delivered(0x80 + opcode % 16, data)], [])
  {
    hide Parse, Complete, Content, After, Encode;
    var f := Written(opcode, data);
    ParseEncoded(f, []);
    assert Encode(f) + [] == Encode(f);
    ParseStep(Encode(f));
    ParseStep([]);
    NothingComplete();
  }
}
