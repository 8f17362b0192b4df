/**
 The wire form of SMPP PDUs (section 3.2 of SMPP v3.4): mandatory fields laid out by a
 table, then TLVs, after a header of four big-endian words. One reader and one writer for
 every table, and the proof that the reader accepts exactly what the writer produces.
 */
module SmppWire {
  import opened Bytes

  /** Overrun stands for a read past the end of the memory handed in. */
  datatype Outcome<T> = Ok(value: T) | Error | Overrun

  /** A C-octet string, a single octet, or ton, npi and address. */
  datatype Field = Text(s: seq<u8>) | Single(octet: u8) | Address(ton: u8, npi: u8, s: seq<u8>)

  /** Sizes count the terminating zero. An unchecked octet is not compared with command_length. */
  datatype Kind = TextKind(max: nat) | SingleKind(checked: bool) | AddressKind(max: nat)

  datatype Tlv = Tlv(tag: u16, value: seq<u8>)

  datatype Layout = Layout(kinds: seq<Kind>, mandatory: set<u16>)

  datatype Pdu = Pdu(id: u32, status: u32, sequence: u32, fields: seq<Field>, tlvs: seq<Tlv>)

  // ---- Writing ----

  function Wire(f: Field): (w: seq<u8>)
    ensures |w| == if f.Single? then 1 else if f.Text? then |f.s| + 1 else |f.s| + 3
  {
    match f
    case Text(s) => s + [0]
    case Single(o) => [o]
    case Address(ton, npi, s) => [ton, npi] + s + [0]
  }

  function Wires(fs: seq<Field>): seq<u8> {
    if fs == [] then [] else Wire(fs[0]) + Wires(fs[1..])
  }

  function TlvWire(t: Tlv): (w: seq<u8>)
    requires |t.value| < 0x1_0000
    ensures |w| == 4 + |t.value|
  {
    Be16(t.tag) + Be16(|t.value|) + t.value
  }

  predicate Sized(ts: seq<Tlv>) {
    forall i :: 0 <= i < |ts| ==> |ts[i].value| < 0x1_0000
  }

  function TlvWires(ts: seq<Tlv>): seq<u8>
    requires Sized(ts)
  {
    if ts == [] then [] else TlvWire(ts[0]) + TlvWires(ts[1..])
  }

  function Body(p: Pdu): seq<u8>
    requires Sized(p.tlvs)
  {
    Wires(p.fields) + TlvWires(p.tlvs)
  }

  function HeaderOctets(length: u32, p: Pdu): (s: seq<u8>)
    ensures |s| == 16
  {
    Be32(length) + Be32(p.id) + Be32(p.status) + Be32(p.sequence)
  }

  function Encoding(p: Pdu): seq<u8>
    requires Sized(p.tlvs) && 16 + |Body(p)| < 0x1_0000_0000
  {
    HeaderOctets(16 + |Body(p)|, p) + Body(p)
  }

  predicate Fits(f: Field, k: Kind) {
    match k
    case TextKind(max) => f.Text? && 0 !in f.s && |f.s| < max
    case SingleKind(_) => f.Single?
    case AddressKind(max) => f.Address? && 0 !in f.s && |f.s| < max
  }

  predicate AllFit(fs: seq<Field>, ks: seq<Kind>) {
    |fs| == |ks| && forall i :: 0 <= i < |fs| ==> Fits(fs[i], ks[i])
  }

  predicate HasTags(ts: seq<Tlv>, tags: set<u16>) {
    forall tag :: tag in tags ==> exists i :: 0 <= i < |ts| && ts[i].tag == tag
  }

  /** What a PDU object of this layout may hold. */
  predicate WellFormed(l: Layout, p: Pdu) {
    && AllFit(p.fields, l.kinds)
    && Sized(p.tlvs)
    && HasTags(p.tlvs, l.mandatory)
    && 16 + |Body(p)| < 0x1_0000_0000
  }

  // ---- Reading ----

  /** Where strlen stops, counting from at; the end of b if there is no zero. */
  function Terminator(b: seq<u8>, at: nat): (z: nat)
    requires at <= |b|
    ensures at <= z <= |b|
    ensures forall i :: at <= i < z ==> b[i] != 0
    ensures z < |b| ==> b[z] == 0
    decreases |b| - at
  {
    if at == |b| || b[at] == 0 then at else Terminator(b, at + 1)
  }

  /** valid_length looks at no more than max octets. */
  function ReadText(b: seq<u8>, at: nat, max: nat): Outcome<seq<u8>>
    requires at <= |b|
  {
    var z := Terminator(b, at);
    if z < |b| && z - at < max then Ok(b[at..z])
    else if |b| - at >= max then Error
    else Overrun
  }

  function Got(f: Field, end: nat): Outcome<(Field, nat)> {
    Ok((f, end))
  }

  /** The subtraction len - at wraps around when at is past len, and then it stops nothing. */
  function ReadAddress(max: nat, b: seq<u8>, at: nat, len: nat): (r: Outcome<(Field, nat)>)
    requires at <= |b|
    ensures r.Ok? ==> r.value.0.Address? && at < r.value.1 <= |b|
  {
    if at <= len < at + 3 then Error
    else if |b| < at + 2 then Overrun
    else match ReadText(b, at + 2, max)
         case Ok(s) => Got(Address(b[at], b[at + 1], s), at + |s| + 3)
         case Error => Error
         case Overrun => Overrun
  }

  function ReadField(k: Kind, b: seq<u8>, at: nat, len: nat): (r: Outcome<(Field, nat)>)
    requires at <= |b|
    ensures r.Ok? ==> at < r.value.1 <= |b|
  {
    match k
    case TextKind(max) =>
      (match ReadText(b, at, max)
       case Ok(s) => if len < at + |s| + 1 then Error else Got(Text(s), at + |s| + 1)
       case Error => Error
       case Overrun => Overrun)
    case SingleKind(checked) =>
      if at == |b| then Overrun
      else if checked && len < at + 1 then Error
      else Got(Single(b[at]), at + 1)
    case AddressKind(max) =>
      var r := ReadAddress(max, b, at, len);
      if r.Ok? && len < r.value.1 then Error else r
  }

  function Prepend<T>(done: seq<T>, r: Outcome<(seq<T>, nat)>): Outcome<(seq<T>, nat)> {
    if r.Ok? then Ok((done + r.value.0, r.value.1)) else r
  }

  function ReadFields(ks: seq<Kind>, b: seq<u8>, at: nat, len: nat): (r: Outcome<(seq<Field>, nat)>)
    requires at <= |b|
    ensures r.Ok? ==> r.value.1 <= |b|
    decreases |ks|
  {
    if ks == [] then Ok(([], at))
    else match ReadField(ks[0], b, at, len)
         case Ok(v) => Prepend([v.0], ReadFields(ks[1..], b, v.1, len))
         case Error => Error
         case Overrun => Overrun
  }

  function ReadTlv(b: seq<u8>, at: nat, len: nat): (r: Outcome<(Tlv, nat)>)
    requires at <= |b| && at <= len
    ensures r.Ok? ==> at < r.value.1 <= len && r.value.1 <= |b|
  {
    if len < at + 4 then Error
    else if |b| < at + 4 then Overrun
    else
      var n := Num16(b[at + 3], b[at + 2]);
      if len < at + 4 + n then Error
      else if |b| < at + 4 + n then Overrun
      else Ok((Tlv(Num16(b[at + 1], b[at]), b[at + 4..at + 4 + n]), at + 4 + n))
  }

  /** decode_tlvs on what is left between at and len. */
  function ReadTlvs(b: seq<u8>, at: nat, len: nat): (r: Outcome<(seq<Tlv>, nat)>)
    requires at <= |b| && at <= len
    decreases len - at
  {
    if at == len then Ok(([], at))
    else match ReadTlv(b, at, len)
         case Ok(v) => Prepend([v.0], ReadTlvs(b, v.1, len))
         case Error => Error
         case Overrun => Overrun
  }

  function Word(b: seq<u8>, at: nat): u32
    requires at + 4 <= |b|
  {
    Num32(b[at + 3], b[at + 2], b[at + 1], b[at])
  }

  /** decode on an object that already holds the TLVs prior: what is read comes behind them. */
  function ReadBody(l: Layout, prior: seq<Tlv>, b: seq<u8>): Outcome<(seq<Field>, seq<Tlv>)>
    requires 16 <= |b|
  {
    var len := Word(b, 0);
    if len < 16 then Error
    else match ReadFields(l.kinds, b, 16, len)
         case Error => Error
         case Overrun => Overrun
         case Ok(v) =>
           if len < v.1 then Error
           else match ReadTlvs(b, v.1, len)
                case Error => Error
                case Overrun => Overrun
                case Ok(t) => if HasTags(prior + t.0, l.mandatory) then Ok((v.0, prior + t.0)) else Error
  }

  function ReadInto(l: Layout, prior: seq<Tlv>, b: seq<u8>): Outcome<Pdu> {
    if |b| < 16 then Overrun
    else match ReadBody(l, prior, b)
         case Error => Error
         case Overrun => Overrun
         case Ok(v) => Ok(Pdu(Word(b, 4), Word(b, 8), Word(b, 12), v.0, v.1))
  }

  /** decode on a new object. */
  function ReadPdu(l: Layout, b: seq<u8>): Outcome<Pdu> {
    ReadInto(l, [], b)
  }

  // ---- The reader accepts exactly what the writer produces ----

  /** b shows w from position at on. */
  predicate At(b: seq<u8>, at: nat, w: seq<u8>) {
    at + |w| <= |b| && b[at..at + |w|] == w
  }

  lemma AtJoin(b: seq<u8>, at: nat, u: seq<u8>, v: seq<u8>)
    ensures At(b, at, u + v) <==> At(b, at, u) && At(b, at + |u|, v)
  {
    if At(b, at, u + v) {
      assert b[at..at + |u|] == b[at..at + |u + v|][..|u|];
      assert b[at + |u|..at + |u| + |v|] == b[at..at + |u + v|][|u|..];
    }
    if At(b, at, u) && At(b, at + |u|, v) {
      assert b[at..at + |u| + |v|] == b[at..at + |u|] + b[at + |u|..at + |u| + |v|];
    }
  }

  lemma TextIsTerminated(b: seq<u8>, at: nat, max: nat, s: seq<u8>)
    requires at <= |b|
    ensures ReadText(b, at, max) == Ok(s) <==> At(b, at, s + [0]) && 0 !in s && |s| < max
  {
    AtJoin(b, at, s, [0]);
    var z := Terminator(b, at);
    if ReadText(b, at, max) == Ok(s) {
      assert b[z..z + 1] == [0];
    }
    if At(b, at, s + [0]) && 0 !in s && |s| < max {
      assert |s + [0]| == |s| + 1 && b[at..at + |s| + 1] == s + [0];
      assert b[at + |s|] == b[at..at + |s| + 1][|s|];
      forall i | at <= i < at + |s|
        ensures b[i] != 0
      {
        assert b[i] == s[i - at];
      }
      assert z == at + |s|;
    }
  }

  lemma FieldIff(k: Kind, b: seq<u8>, at: nat, len: nat, f: Field, end: nat)
    requires at <= |b|
    ensures ReadField(k, b, at, len) == Ok((f, end))
       <==> Fits(f, k) && At(b, at, Wire(f)) && end == at + |Wire(f)| && (end <= len || k == SingleKind(false))
  {
    if k.TextKind? {
      TextFieldIff(k, b, at, len, f, end);
    } else if k.SingleKind? {
      assert at < |b| ==> b[at..at + 1] == [b[at]];
      assert f.Single? ==> |Wire(f)| == 1;
    } else {
      AddressFieldIff(k, b, at, len, f, end);
    }
  }

  lemma TextFieldIff(k: Kind, b: seq<u8>, at: nat, len: nat, f: Field, end: nat)
    requires k.TextKind?
    requires at <= |b|
    ensures ReadField(k, b, at, len) == Ok((f, end))
       <==> Fits(f, k) && At(b, at, Wire(f)) && end == at + |Wire(f)| && (end <= len || k == SingleKind(false))
  {
    hide ReadText, At;
    var r := ReadText(b, at, k.max);
    if f.Text? {
      TextIsTerminated(b, at, k.max, f.s);
    }
    if r.Ok? {
      TextIsTerminated(b, at, k.max, r.value);
    }
  }

  lemma AddressFieldIff(k: Kind, b: seq<u8>, at: nat, len: nat, f: Field, end: nat)
    requires k.AddressKind?
    requires at <= |b|
    ensures ReadField(k, b, at, len) == Ok((f, end))
       <==> Fits(f, k) && At(b, at, Wire(f)) && end == at + |Wire(f)| && (end <= len || k == SingleKind(false))
  {
    hide ReadAddress, At;
    AddressIff(k.max, b, at, len, f, end);
  }

  lemma AddressIff(max: nat, b: seq<u8>, at: nat, len: nat, f: Field, end: nat)
    requires at <= |b|
    ensures ReadAddress(max, b, at, len) == Ok((f, end))
       <==> Fits(f, AddressKind(max)) && At(b, at, Wire(f)) && end == at + |Wire(f)| && !(at <= len < at + 3)
  {
    hide ReadText, At;
    if f.Address? {
      AtJoin(b, at, [f.ton, f.npi], f.s + [0]);
      assert Wire(f) == [f.ton, f.npi] + (f.s + [0]);
    }
    if at + 2 <= |b| {
      if f.Address? {
        TextIsTerminated(b, at + 2, max, f.s);
        PairAt(b, at, f.ton, f.npi);
      }
    } else if f.Address? && At(b, at, Wire(f)) {
      AtIsIn(b, at, Wire(f));
    }
  }

  lemma PairAt(b: seq<u8>, at: nat, x: u8, y: u8)
    requires at + 2 <= |b|
    ensures At(b, at, [x, y]) <==> b[at] == x && b[at + 1] == y
  {
    assert b[at..at + 2] == [b[at], b[at + 1]];
  }

  /** The length test that matters is the last one; the octets that skip it stay inside. */
  predicate EndsChecked(ks: seq<Kind>) {
    ks != [] && ks[|ks| - 1] != SingleKind(false)
  }

  lemma {:induction false} FieldsForward(ks: seq<Kind>, b: seq<u8>, at: nat, len: nat, fs: seq<Field>)
    requires at <= |b| && AllFit(fs, ks) && At(b, at, Wires(fs)) && at + |Wires(fs)| <= len
    ensures ReadFields(ks, b, at, len) == Ok((fs, at + |Wires(fs)|))
    decreases |ks|
  {
    hide Wire, Fits, ReadField;
    if ks != [] {
      var end := at + |Wire(fs[0])|;
      AtJoin(b, at, Wire(fs[0]), Wires(fs[1..]));
      FieldIff(ks[0], b, at, len, fs[0], end);
      FieldsForward(ks[1..], b, end, len, fs[1..]);
      assert [fs[0]] + fs[1..] == fs;
    }
  }

  lemma {:induction false} FieldsBackward(ks: seq<Kind>, b: seq<u8>, at: nat, len: nat)
    requires at <= |b| && ReadFields(ks, b, at, len).Ok?
    ensures var v := ReadFields(ks, b, at, len).value;
            && AllFit(v.0, ks) && At(b, at, Wires(v.0)) && v.1 == at + |Wires(v.0)|
            && (EndsChecked(ks) ==> v.1 <= len)
    decreases |ks|
  {
    hide Wire, Fits, ReadField;
    if ks != [] {
      var first := ReadField(ks[0], b, at, len).value;
      FieldIff(ks[0], b, at, len, first.0, first.1);
      FieldsBackward(ks[1..], b, first.1, len);
      var rest := ReadFields(ks[1..], b, first.1, len).value;
      assert ([first.0] + rest.0)[1..] == rest.0;
      AtJoin(b, at, Wire(first.0), Wires(rest.0));
    }
  }

  lemma TlvIff(b: seq<u8>, at: nat, len: nat, t: Tlv, end: nat)
    requires at <= |b| && at <= len
    ensures ReadTlv(b, at, len) == Ok((t, end))
       <==> |t.value| < 0x1_0000 && At(b, at, TlvWire(t)) && end == at + |TlvWire(t)| && end <= len
  {
    if at + 4 <= |b| && |t.value| < 0x1_0000 {
      var h := Be16(t.tag) + Be16(|t.value|);
      AtJoin(b, at, h, t.value);
      assert b[at..at + 4] == [b[at], b[at + 1], b[at + 2], b[at + 3]];
      TwoOctets(b[at], b[at + 1], t.tag);
      TwoOctets(b[at + 2], b[at + 3], |t.value|);
    }
  }

  lemma TwoOctets(x: u8, y: u8, w: u16)
    ensures [x, y] == Be16(w) <==> Num16(y, x) == w
  {
  }

  lemma {:induction false} TlvsForward(b: seq<u8>, at: nat, ts: seq<Tlv>)
    requires at <= |b| && Sized(ts) && At(b, at, TlvWires(ts))
    ensures ReadTlvs(b, at, at + |TlvWires(ts)|) == Ok((ts, at + |TlvWires(ts)|))
    decreases |ts|
  {
    hide TlvWire, ReadTlv;
    if ts != [] {
      var len, end := at + |TlvWires(ts)|, at + |TlvWire(ts[0])|;
      AtJoin(b, at, TlvWire(ts[0]), TlvWires(ts[1..]));
      TlvIff(b, at, len, ts[0], end);
      TlvsForward(b, end, ts[1..]);
      assert [ts[0]] + ts[1..] == ts;
    }
  }

  lemma {:induction false} TlvsBackward(b: seq<u8>, at: nat, len: nat)
    requires at <= |b| && at <= len && ReadTlvs(b, at, len).Ok?
    ensures var v := ReadTlvs(b, at, len).value;
            Sized(v.0) && At(b, at, TlvWires(v.0)) && v.1 == len == at + |TlvWires(v.0)|
    decreases len - at
  {
    hide TlvWire;
    if at < len {
      var first := ReadTlv(b, at, len).value;
      TlvIff(b, at, len, first.0, first.1);
      TlvsBackward(b, first.1, len);
      var rest := ReadTlvs(b, first.1, len).value;
      assert ([first.0] + rest.0)[1..] == rest.0;
      AtJoin(b, at, TlvWire(first.0), TlvWires(rest.0));
    }
  }

  /** Where the parts of a field that was read stand. */
  lemma FieldStands(k: Kind, b: seq<u8>, at: nat, len: nat)
    requires at <= |b| && ReadField(k, b, at, len).Ok?
    ensures var (f, end) := ReadField(k, b, at, len).value;
            match f
            case Text(s) => end == at + |s| + 1 <= |b| && b[at..end - 1] == s && b[end - 1] == 0 && 0 !in s
            case Single(o) => end == at + 1 <= |b| && o == b[at]
            case Address(ton, npi, s) =>
              end == at + |s| + 3 <= |b| && ton == b[at] && npi == b[at + 1]
              && b[at + 2..end - 1] == s && b[end - 1] == 0 && 0 !in s
  {
    if k.AddressKind? {
      TextStands(b, at + 2, k.max);
    } else if k.TextKind? {
      TextStands(b, at, k.max);
    }
  }

  lemma TextStands(b: seq<u8>, at: nat, max: nat)
    requires at <= |b|
    ensures var r := ReadText(b, at, max);
            r.Ok? ==> at + |r.value| < |b| && b[at..at + |r.value|] == r.value && b[at + |r.value|] == 0 && 0 !in r.value
  {
  }

  lemma TlvStands(b: seq<u8>, at: nat, len: nat)
    requires at <= |b| && at <= len && ReadTlv(b, at, len).Ok?
    ensures var (t, end) := ReadTlv(b, at, len).value;
            && end == at + 4 + |t.value| <= |b|
            && t.tag == 0x100 * (b[at] as int) + b[at + 1] as int
            && |t.value| == 0x100 * (b[at + 2] as int) + b[at + 3] as int
            && t.value == b[at + 4..end]
  {
  }

  lemma WordIff(b: seq<u8>, at: nat, w: u32)
    requires at + 4 <= |b|
    ensures Word(b, at) == w <==> At(b, at, Be32(w))
  {
    hide Octet, Num32;
    OctetsOfNum32(b[at + 3], b[at + 2], b[at + 1], b[at]);
    Num32OfOctets(w);
    assert b[at..at + 4] == [b[at], b[at + 1], b[at + 2], b[at + 3]];
  }

  lemma HeaderIff(b: seq<u8>, len: u32, p: Pdu)
    requires 16 <= |b|
    ensures At(b, 0, HeaderOctets(len, p))
       <==> Word(b, 0) == len && Word(b, 4) == p.id && Word(b, 8) == p.status && Word(b, 12) == p.sequence
  {
    hide Word, At;
    WordIff(b, 0, len);
    WordIff(b, 4, p.id);
    WordIff(b, 8, p.status);
    WordIff(b, 12, p.sequence);
    AtJoin(b, 0, Be32(len), Be32(p.id));
    AtJoin(b, 0, Be32(len) + Be32(p.id), Be32(p.status));
    AtJoin(b, 0, Be32(len) + Be32(p.id) + Be32(p.status), Be32(p.sequence));
  }

  /** Whatever was encoded is read back, whatever octets follow it. */
  lemma ReadBack(l: Layout, p: Pdu, b: seq<u8>)
    requires WellFormed(l, p) && At(b, 0, Encoding(p))
    ensures ReadPdu(l, b) == Ok(p)
  {
    hide Word, At, Wires, TlvWires, AllFit, ReadFields, ReadTlvs, HasTags, HeaderOctets;
    var len := 16 + |Body(p)|;
    AtIsIn(b, 0, Encoding(p));
    AtJoin(b, 0, HeaderOctets(len, p), Body(p));
    AtJoin(b, 16, Wires(p.fields), TlvWires(p.tlvs));
    HeaderIff(b, len, p);
    FieldsForward(l.kinds, b, 16, len, p.fields);
    AtIsIn(b, 16, Wires(p.fields));
    TlvsForward(b, 16 + |Wires(p.fields)|, p.tlvs);
    assert [] + p.tlvs == p.tlvs;
  }

  lemma AtIsIn(b: seq<u8>, at: nat, w: seq<u8>)
    requires At(b, at, w)
    ensures at + |w| <= |b|
  {
  }

  /** Encoding what was read gives back the first command_length octets. */
  lemma WriteBack(l: Layout, b: seq<u8>, p: Pdu)
    requires EndsChecked(l.kinds) && ReadPdu(l, b) == Ok(p)
    ensures WellFormed(l, p) && At(b, 0, Encoding(p)) && |Encoding(p)| == Word(b, 0)
  {
    hide Word, At, Wires, TlvWires, AllFit, ReadFields, ReadTlvs, HasTags, HeaderOctets;
    var len := Word(b, 0);
    FieldsBackward(l.kinds, b, 16, len);
    var v := ReadFields(l.kinds, b, 16, len).value;
    TlvsBackward(b, v.1, len);
    var t := ReadTlvs(b, v.1, len).value.0;
    assert [] + t == t;
    AtJoin(b, 16, Wires(p.fields), TlvWires(p.tlvs));
    HeaderIff(b, len, p);
    AtJoin(b, 0, HeaderOctets(len, p), Body(p));
  }

  /**
   A layout's decoder accepts an octet array exactly when it starts with the encoding of
   a PDU of that layout, and then it yields that PDU.
   */
  lemma AcceptsExactlyEncodings(l: Layout, b: seq<u8>, p: Pdu)
    requires EndsChecked(l.kinds)
    ensures ReadPdu(l, b) == Ok(p) <==> WellFormed(l, p) && At(b, 0, Encoding(p))
  {
    hide ReadPdu, At, Encoding;
    if ReadPdu(l, b) == Ok(p) {
      WriteBack(l, b, p);
    }
    if WellFormed(l, p) && At(b, 0, Encoding(p)) {
      ReadBack(l, p, b);
    }
  }

  // ---- The four tables ----

  function BroadcastSm(): Layout {
    Layout([TextKind(6), AddressKind(21), TextKind(65), SingleKind(true), TextKind(17), TextKind(17),
            SingleKind(true), SingleKind(true), SingleKind(true)],
           {0x0606, 0x0601, 0x0604, 0x0605})
  }

  function DataSm(limit1: nat, limit2: nat): Layout {
    Layout([TextKind(6), AddressKind(limit1), AddressKind(limit2), SingleKind(true), SingleKind(true), SingleKind(true)],
           {})
  }

  function CancelSm(): Layout {
    Layout([TextKind(6), TextKind(65), AddressKind(21), AddressKind(21)], {})
  }

  function BindReceiver(): Layout {
    Layout([TextKind(16), TextKind(19), TextKind(13), SingleKind(false), SingleKind(false), SingleKind(false),
            TextKind(41)], {})
  }

  predicate IsText(f: Field, longest: nat) {
    f.Text? && |f.s| <= longest && 0 !in f.s
  }

  predicate IsAddress(f: Field, longest: nat) {
    f.Address? && |f.s| <= longest && 0 !in f.s
  }

  /** The fields of the four PDUs in their order, with the longest texts they take. */
  lemma FieldsInOrder(fs: seq<Field>)
    ensures AllFit(fs, BroadcastSm().kinds)
       <==> |fs| == 9 && IsText(fs[0], 5) && IsAddress(fs[1], 20) && IsText(fs[2], 64) && fs[3].Single?
            && IsText(fs[4], 16) && IsText(fs[5], 16) && fs[6].Single? && fs[7].Single? && fs[8].Single?
    ensures AllFit(fs, DataSm(21, 21).kinds)
       <==> |fs| == 6 && IsText(fs[0], 5) && IsAddress(fs[1], 20) && IsAddress(fs[2], 20)
            && fs[3].Single? && fs[4].Single? && fs[5].Single?
    ensures AllFit(fs, CancelSm().kinds)
       <==> |fs| == 4 && IsText(fs[0], 5) && IsText(fs[1], 64) && IsAddress(fs[2], 20) && IsAddress(fs[3], 20)
    ensures AllFit(fs, BindReceiver().kinds)
       <==> |fs| == 7 && IsText(fs[0], 15) && IsText(fs[1], 18) && IsText(fs[2], 12)
            && fs[3].Single? && fs[4].Single? && fs[5].Single? && IsText(fs[6], 40)
  {
    FitsBroadcast(fs);
    FitsData(fs);
    FitsCancel(fs);
    FitsBind(fs);
    hide BroadcastSm, DataSm, CancelSm, BindReceiver, AllFit, IsText, IsAddress;
  }

  lemma FitsCancel(fs: seq<Field>)
    ensures AllFit(fs, CancelSm().kinds)
       <==> |fs| == 4 && IsText(fs[0], 5) && IsText(fs[1], 64) && IsAddress(fs[2], 20) && IsAddress(fs[3], 20)
  {
    var ks := CancelSm().kinds;
    if |fs| == 4 {
      hide Fits;
      assert AllFit(fs, ks) <==> Fits(fs[0], ks[0]) && Fits(fs[1], ks[1]) && Fits(fs[2], ks[2]) && Fits(fs[3], ks[3]);
      FitsMeans(fs);
    }
  }

  lemma FitsBroadcast(fs: seq<Field>)
    ensures AllFit(fs, BroadcastSm().kinds)
       <==> |fs| == 9 && IsText(fs[0], 5) && IsAddress(fs[1], 20) && IsText(fs[2], 64) && fs[3].Single?
            && IsText(fs[4], 16) && IsText(fs[5], 16) && fs[6].Single? && fs[7].Single? && fs[8].Single?
  {
    var ks := BroadcastSm().kinds;
    if |fs| == 9 {
      hide Fits;
      assert AllFit(fs, ks) <==> Fits(fs[0], ks[0]) && Fits(fs[1], ks[1]) && Fits(fs[2], ks[2]) && Fits(fs[3], ks[3])
                                 && Fits(fs[4], ks[4]) && Fits(fs[5], ks[5]) && Fits(fs[6], ks[6])
                                 && Fits(fs[7], ks[7]) && Fits(fs[8], ks[8]);
      FitsMeans(fs);
    }
  }

  lemma FitsMeans(fs: seq<Field>)
    ensures forall i, max: nat :: 0 <= i < |fs| && max > 0 ==> (Fits(fs[i], TextKind(max)) <==> IsText(fs[i], max - 1))
    ensures forall i, max: nat :: 0 <= i < |fs| && max > 0 ==> (Fits(fs[i], AddressKind(max)) <==> IsAddress(fs[i], max - 1))
    ensures forall i, c :: 0 <= i < |fs| ==> (Fits(fs[i], SingleKind(c)) <==> fs[i].Single?)
  {
  }

  lemma FitsData(fs: seq<Field>)
    ensures AllFit(fs, DataSm(21, 21).kinds)
       <==> |fs| == 6 && IsText(fs[0], 5) && IsAddress(fs[1], 20) && IsAddress(fs[2], 20)
            && fs[3].Single? && fs[4].Single? && fs[5].Single?
  {
    var ks := DataSm(21, 21).kinds;
    if |fs| == 6 {
      hide Fits;
      assert AllFit(fs, ks) <==> Fits(fs[0], ks[0]) && Fits(fs[1], ks[1]) && Fits(fs[2], ks[2]) && Fits(fs[3], ks[3])
                                 && Fits(fs[4], ks[4]) && Fits(fs[5], ks[5]);
      FitsMeans(fs);
    }
  }

  lemma FitsBind(fs: seq<Field>)
    ensures AllFit(fs, BindReceiver().kinds)
       <==> |fs| == 7 && IsText(fs[0], 15) && IsText(fs[1], 18) && IsText(fs[2], 12)
            && fs[3].Single? && fs[4].Single? && fs[5].Single? && IsText(fs[6], 40)
  {
    var ks := BindReceiver().kinds;
    if |fs| == 7 {
      hide Fits;
      assert AllFit(fs, ks) <==> Fits(fs[0], ks[0]) && Fits(fs[1], ks[1]) && Fits(fs[2], ks[2]) && Fits(fs[3], ks[3])
                                 && Fits(fs[4], ks[4]) && Fits(fs[5], ks[5]) && Fits(fs[6], ks[6]);
      FitsMeans(fs);
    }
  }

  function Least(k: Kind): nat {
    if k.AddressKind? then 3 else 1
  }

  function MinLengthFrom(ks: seq<Kind>, i: nat): nat
    requires i <= |ks|
    decreases |ks| - i
  {
    if i == |ks| then 0 else Least(ks[i]) + MinLengthFrom(ks, i + 1)
  }

  function MinLength(ks: seq<Kind>): nat {
    16 + MinLengthFrom(ks, 0)
  }

  function VariableFrom(fs: seq<Field>, i: nat): nat
    requires i <= |fs|
    decreases |fs| - i
  {
    if i == |fs| then 0 else (if fs[i].Single? then 0 else |fs[i].s|) + VariableFrom(fs, i + 1)
  }

  lemma {:induction false} WiresLength(fs: seq<Field>, ks: seq<Kind>, i: nat)
    requires AllFit(fs, ks) && i <= |fs|
    ensures |Wires(fs[i..])| == MinLengthFrom(ks, i) + VariableFrom(fs, i)
    decreases |fs| - i
  {
    if i < |fs| {
      assert Fits(fs[i], ks[i]);
      WiresLength(fs, ks, i + 1);
      assert fs[i..][1..] == fs[i + 1..];
    }
  }

  /** command_length less the TLVs is the layout's MinLength plus the lengths of the texts. */
  lemma LengthSplits(fs: seq<Field>, ks: seq<Kind>)
    requires AllFit(fs, ks)
    ensures 16 + |Wires(fs)| == MinLength(ks) + VariableFrom(fs, 0)
  {
    WiresLength(fs, ks, 0);
    assert fs[0..] == fs;
  }

  lemma MinLengths(limit1: nat, limit2: nat)
    ensures MinLength(BroadcastSm().kinds) == 27 && MinLength(DataSm(limit1, limit2).kinds) == 26
    ensures MinLength(CancelSm().kinds) == 24 && MinLength(BindReceiver().kinds) == 23
  {
    BroadcastLeast(BroadcastSm().kinds);
    DataLeast(DataSm(limit1, limit2).kinds);
    assert MinLengthFrom(CancelSm().kinds, 3) == 3 && MinLengthFrom(CancelSm().kinds, 1) == 7;
    BindLeast(BindReceiver().kinds);
  }

  lemma BroadcastLeast(ks: seq<Kind>)
    requires ks == BroadcastSm().kinds
    ensures MinLength(ks) == 27
  {
    assert MinLengthFrom(ks, 8) == 1 && MinLengthFrom(ks, 6) == 3;
    assert MinLengthFrom(ks, 4) == 5 && MinLengthFrom(ks, 2) == 7;
  }

  lemma DataLeast(ks: seq<Kind>)
    requires exists m: nat, n: nat :: ks == DataSm(m, n).kinds
    ensures MinLength(ks) == 26
  {
    assert MinLengthFrom(ks, 5) == 1 && MinLengthFrom(ks, 3) == 3 && MinLengthFrom(ks, 1) == 9;
  }

  lemma BindLeast(ks: seq<Kind>)
    requires ks == BindReceiver().kinds
    ensures MinLength(ks) == 23
  {
    assert MinLengthFrom(ks, 6) == 1 && MinLengthFrom(ks, 4) == 3 && MinLengthFrom(ks, 2) == 5;
  }

  lemma TablesEndChecked(limit1: nat, limit2: nat)
    ensures EndsChecked(BroadcastSm().kinds) && EndsChecked(DataSm(limit1, limit2).kinds)
    ensures EndsChecked(CancelSm().kinds) && EndsChecked(BindReceiver().kinds)
  {
  }

  /** An address with a character too many is an error to a reader with a lower limit. */
  lemma LongAddressIsError(max: nat, b: seq<u8>, at: nat, len: nat, f: Field)
    requires f.Address? && 0 !in f.s && max <= |f.s| && At(b, at, Wire(f)) && at + |Wire(f)| <= len
    ensures ReadField(AddressKind(max), b, at, len).Error?
  {
    hide Terminator;
    var w := f.s + [0];
    assert Wire(f) == [f.ton, f.npi] + w;
    AtJoin(b, at, [f.ton, f.npi], w);
    TextIsTerminated(b, at + 2, |f.s| + 1, f.s);
  }

  /** Two fields, the first of which reads well. */
  lemma SecondField(ks: seq<Kind>, fs: seq<Field>, b: seq<u8>, at: nat, len: nat)
    requires |ks| == |fs| >= 2 && at <= |b| && At(b, at, Wires(fs)) && at + |Wires(fs)| <= len && Fits(fs[0], ks[0])
    ensures ReadFields(ks, b, at, len).Error? <==> ReadFields(ks[1..], b, at + |Wire(fs[0])|, len).Error?
    ensures At(b, at + |Wire(fs[0])|, Wires(fs[1..])) && At(b, at + |Wire(fs[0])|, Wire(fs[1]))
    ensures |Wires(fs)| == |Wire(fs[0])| + |Wires(fs[1..])| && |Wires(fs[1..])| >= |Wire(fs[1])|
  {
    hide ReadField, At, Fits, Wire;
    AtJoin(b, at, Wire(fs[0]), Wires(fs[1..]));
    AtJoin(b, at + |Wire(fs[0])|, Wire(fs[1]), Wires(fs[1..][1..]));
    FieldIff(ks[0], b, at, len, fs[0], at + |Wire(fs[0])|);
  }

  lemma LongDataSm(p: Pdu)
    requires WellFormed(DataSm(65, 65), p)
    requires |p.fields[1].s| > 20 || |p.fields[2].s| > 20
    ensures ReadPdu(DataSm(21, 21), Encoding(p)) == Error
  {
    hide Word, At, Wires, TlvWires, ReadFields, ReadField, HasTags, HeaderOctets, Wire;
    var len, b, fs := 16 + |Body(p)|, Encoding(p), p.fields;
    var ks := DataSm(21, 21).kinds;
    assert forall i :: 0 <= i < 6 ==> Fits(fs[i], DataSm(65, 65).kinds[i]);
    WholeAt(b);
    AtJoin(b, 0, HeaderOctets(len, p), Body(p));
    AtJoin(b, 16, Wires(fs), TlvWires(p.tlvs));
    HeaderIff(b, len, p);
    SecondField(ks, fs, b, 16, len);
    var at := 16 + |Wire(fs[0])|;
    if |fs[1].s| > 20 {
      LongAddressIsError(21, b, at, len, fs[1]);
      FirstError(ks[1..], b, at, len);
    } else {
      SecondField(ks[1..], fs[1..], b, at, len);
      LongAddressIsError(21, b, at + |Wire(fs[1])|, len, fs[2]);
      FirstError(ks[1..][1..], b, at + |Wire(fs[1])|, len);
    }
  }

  lemma WholeAt(b: seq<u8>)
    ensures At(b, 0, b)
  {
  }

  lemma FirstError(ks: seq<Kind>, b: seq<u8>, at: nat, len: nat)
    requires ks != [] && at <= |b| && ReadField(ks[0], b, at, len).Error?
    ensures ReadFields(ks, b, at, len).Error?
  {
    hide ReadField;
  }

  /**
   data_sm addresses set from a bare address may have 64 characters, but a new data_sm
   object reads addresses of at most 20: it reads its own kind back exactly when both
   addresses keep to that.
   */
  lemma DataSmReadsBack(p: Pdu)
    requires WellFormed(DataSm(65, 65), p)
    ensures ReadPdu(DataSm(21, 21), Encoding(p)) == Ok(p)
       <==> |p.fields[1].s| <= 20 && |p.fields[2].s| <= 20
    ensures ReadPdu(DataSm(21, 21), Encoding(p)) == Ok(p) || ReadPdu(DataSm(21, 21), Encoding(p)) == Error
  {
    hide ReadPdu, Encoding, Body, HasTags;
    if |p.fields[1].s| > 20 || |p.fields[2].s| > 20 {
      LongDataSm(p);
    }
    assert At(Encoding(p), 0, Encoding(p));
    AcceptsExactlyEncodings(DataSm(21, 21), Encoding(p), p);
    var ks := DataSm(65, 65).kinds;
    assert forall i :: 0 <= i < 6 ==> Fits(p.fields[i], ks[i]);
    assert p.fields[1].Address? && p.fields[2].Address?;
  }
}
