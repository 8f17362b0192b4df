/**
 A PDU object: header words, mandatory fields, TLVs and the encode buffer. The PDU classes
 differ in their field table only, so the table is a parameter here.
 */
module SmppPdu {
  import opened Bytes
  import opened SmppWire
  import opened SmppBuffer

  // ---- Lengths of field and TLV lists under change ----

  lemma {:induction false} WiresJoin(a: seq<Field>, b: seq<Field>)
    ensures Wires(a + b) == Wires(a) + Wires(b)
  {
    if a == [] {
      assert a + b == b;
    } else {
      assert (a + b)[1..] == a[1..] + b;
      WiresJoin(a[1..], b);
    }
  }

  lemma {:induction false} TlvsJoin(a: seq<Tlv>, b: seq<Tlv>)
    requires Sized(a) && Sized(b)
    ensures Sized(a + b) && TlvWires(a + b) == TlvWires(a) + TlvWires(b)
  {
    if a == [] {
      assert a + b == b;
    } else {
      hide TlvWire;
      assert (a + b)[1..] == a[1..] + b;
      TlvsJoin(a[1..], b);
    }
  }

  lemma WiresOne(f: Field)
    ensures Wires([f]) == Wire(f)
  {
    assert [f][1..] == [];
  }

  lemma TlvsOne(t: Tlv)
    requires |t.value| < 0x1_0000
    ensures TlvWires([t]) == TlvWire(t)
  {
    assert [t][1..] == [];
  }

  /** Field i goes on the wire between the fields before it and the fields after it. */
  lemma WiresAt(fs: seq<Field>, i: nat)
    requires i < |fs|
    ensures Wires(fs[..i + 1]) == Wires(fs[..i]) + Wire(fs[i])
    ensures |Wires(fs[..i])| + |Wire(fs[i])| <= |Wires(fs)|
  {
    hide Wires, Wire;
    WiresOne(fs[i]);
    WiresJoin(fs[..i], [fs[i]]);
    WiresJoin(fs[..i + 1], fs[i + 1..]);
    assert fs[..i + 1] == fs[..i] + [fs[i]];
    assert fs == fs[..i + 1] + fs[i + 1..];
  }

  lemma TlvsAt(ts: seq<Tlv>, i: nat)
    requires i < |ts| && Sized(ts)
    ensures Sized(ts[..i + 1]) && TlvWires(ts[..i + 1]) == TlvWires(ts[..i]) + TlvWire(ts[i])
    ensures |TlvWires(ts[..i])| + |TlvWire(ts[i])| <= |TlvWires(ts)|
  {
    hide TlvWires, TlvWire;
    TlvsOne(ts[i]);
    TlvsJoin(ts[..i], [ts[i]]);
    TlvsJoin(ts[..i + 1], ts[i + 1..]);
    assert ts[..i + 1] == ts[..i] + [ts[i]];
    assert ts == ts[..i + 1] + ts[i + 1..];
  }

  /** Replacing a field changes the total by the difference of the two. */
  lemma WiresUpdate(fs: seq<Field>, i: nat, f: Field)
    requires i < |fs|
    ensures |Wires(fs[i := f])| == |Wires(fs)| - |Wire(fs[i])| + |Wire(f)|
  {
    hide Wires, Wire;
    WiresOne(fs[i]);
    WiresOne(f);
    WiresJoin(fs[..i] + [fs[i]], fs[i + 1..]);
    WiresJoin(fs[..i] + [f], fs[i + 1..]);
    WiresJoin(fs[..i], [fs[i]]);
    WiresJoin(fs[..i], [f]);
    assert fs == fs[..i] + [fs[i]] + fs[i + 1..];
    assert fs[i := f] == fs[..i] + [f] + fs[i + 1..];
  }

  lemma FitUpdate(fs: seq<Field>, ks: seq<Kind>, i: nat, f: Field, k: Kind)
    requires AllFit(fs, ks) && i < |fs|
    ensures |fs| == |ks| && Fits(fs[i], ks[i])
    ensures Fits(f, k) ==> AllFit(fs[i := f], ks[i := k])
    ensures ks[i := ks[i]] == ks
  {
  }

  function Without(ts: seq<Tlv>, tag: u16): (r: seq<Tlv>)
    ensures forall t :: t in r <==> t in ts && t.tag != tag
  {
    if ts == [] then []
    else if ts[0].tag == tag then Without(ts[1..], tag)
    else [ts[0]] + Without(ts[1..], tag)
  }

  /** A list of TLVs is searched piece by piece, so those that stay keep their order. */
  lemma {:induction false} WithoutJoin(a: seq<Tlv>, b: seq<Tlv>, tag: u16)
    ensures Without(a + b, tag) == Without(a, tag) + Without(b, tag)
  {
    if a == [] {
      assert a + b == b;
    } else {
      assert (a + b)[1..] == a[1..] + b;
      WithoutJoin(a[1..], b, tag);
    }
  }

  function FirstWith(ts: seq<Tlv>, tag: u16): (i: nat)
    ensures i <= |ts| && (i < |ts| ==> ts[i].tag == tag)
    ensures forall k :: 0 <= k < i ==> ts[k].tag != tag
  {
    if ts == [] || ts[0].tag == tag then 0 else 1 + FirstWith(ts[1..], tag)
  }

  /** Just behind the last TLV with the tag; 0 if there is none. */
  function PastLast(ts: seq<Tlv>, tag: u16): (i: nat)
    ensures i <= |ts| && (i > 0 ==> ts[i - 1].tag == tag)
    ensures forall k :: i <= k < |ts| ==> ts[k].tag != tag
  {
    if ts == [] then 0
    else if ts[|ts| - 1].tag == tag then |ts|
    else PastLast(ts[..|ts| - 1], tag)
  }

  /** The list once the TLVs with the tag are gone from position i on. */
  function WithoutFrom(ts: seq<Tlv>, i: nat, tag: u16): seq<Tlv>
    requires i <= |ts|
  {
    ts[..i] + Without(ts[i..], tag)
  }

  lemma WithoutStep(ts: seq<Tlv>, i: nat, tag: u16)
    requires i < |ts|
    ensures WithoutFrom(ts, i, tag)
         == if ts[i].tag == tag then WithoutFrom(ts[..i] + ts[i + 1..], i, tag) else WithoutFrom(ts, i + 1, tag)
  {
    var front, back := ts[..i], ts[i + 1..];
    hide Without;
    WithoutHead(ts[i], back, tag);
    assert ts[i..] == [ts[i]] + back;
    if ts[i].tag == tag {
      assert (front + back)[..i] == front && (front + back)[i..] == back;
    } else {
      assert ts[..i + 1] == front + [ts[i]];
      assert front + ([ts[i]] + Without(back, tag)) == front + [ts[i]] + Without(back, tag);
    }
  }

  lemma WithoutHead(t: Tlv, ts: seq<Tlv>, tag: u16)
    ensures Without([t] + ts, tag) == if t.tag == tag then Without(ts, tag) else [t] + Without(ts, tag)
  {
    assert ([t] + ts)[1..] == ts;
  }

  lemma WithoutEnds(ts: seq<Tlv>, tag: u16)
    ensures WithoutFrom(ts, 0, tag) == Without(ts, tag) && WithoutFrom(ts, |ts|, tag) == ts
  {
    assert ts[0..] == ts && ts[..0] == [];
  }

  class Message {
    const mandatory: set<u16>
    var commandLength: u32
    var id: u32
    var status: u32
    var sequence: u32
    var kinds: seq<Kind>
    var fields: seq<Field>
    var tlvs: seq<Tlv>
    const buff: Buffer

    function Value(): Pdu
      reads this
    {
      Pdu(id, status, sequence, fields, tlvs)
    }

    function TheLayout(): Layout
      reads this
    {
      Layout(kinds, mandatory)
    }

    /** command_length is the size of what encode writes. */
    ghost predicate Valid()
      reads this
    {
      && AllFit(fields, kinds)
      && Sized(tlvs)
      && 16 + |Wires(fields)| + |TlvWires(tlvs)| < 0x1_0000_0000
      && commandLength == 16 + |Wires(fields)| + |TlvWires(tlvs)|
    }

    /** MinLength, then update_length by the sum of the variable lengths. */
    constructor (l: Layout, id: u32, sequence: u32, fs: seq<Field>)
      requires AllFit(fs, l.kinds) && sequence <= 0x7fff_ffff && 16 + |Wires(fs)| < 0x1_0000_0000
      ensures Valid() && TheLayout() == l && Value() == Pdu(id, 0, sequence, fs, []) && fresh(buff)
    {
      mandatory := l.mandatory;
      this.id := id;
      status := 0;
      this.sequence := sequence;
      kinds := l.kinds;
      fields := fs;
      tlvs := [];
      buff := new Buffer(0);
      LengthSplits(fs, l.kinds);
      commandLength := MinLength(l.kinds) + VariableFrom(fs, 0);
    }

    method UpdateLength(diff: int)
      modifies this`commandLength
      ensures commandLength == (old(commandLength) + diff) % 0x1_0000_0000
    {
      commandLength := (commandLength + diff) % 0x1_0000_0000;
    }

    /** The string setters; a text that is too long is refused before anything changes. */
    method SetText(i: nat, s: seq<u8>) returns (ok: bool)
      requires Valid() && i < |fields| == |kinds| && fields[i].Text? && kinds[i].TextKind? && 0 !in s
      requires commandLength + |s| < 0x1_0000_0000
      modifies this`commandLength, this`fields
      ensures Valid() && ok == (|s| < kinds[i].max)
      ensures fields == if ok then old(fields)[i := Text(s)] else old(fields)
    {
      hide Wires, TlvWires, AllFit;
      FitUpdate(fields, kinds, i, Text(s), kinds[i]);
      WiresUpdate(fields, i, Text(s));
      ok := |s| < kinds[i].max;
      if ok {
        var diff := |s| - |fields[i].s|;
        fields := fields[i := Text(s)];
        UpdateLength(diff);
      }
    }

    /** The address setters. The object takes over the limit of the address it is given. */
    method SetAddress(i: nat, ton: u8, npi: u8, s: seq<u8>, limit: nat)
      requires Valid() && i < |fields| == |kinds| && fields[i].Address? && 0 !in s && |s| < limit
      requires commandLength + |s| < 0x1_0000_0000
      modifies this`commandLength, this`fields, this`kinds
      ensures Valid() && fields == old(fields)[i := Address(ton, npi, s)]
      ensures kinds == old(kinds)[i := AddressKind(limit)]
    {
      hide Wires, TlvWires, AllFit;
      FitUpdate(fields, kinds, i, Address(ton, npi, s), AddressKind(limit));
      WiresUpdate(fields, i, Address(ton, npi, s));
      var diff := |s| - |fields[i].s|;
      fields := fields[i := Address(ton, npi, s)];
      kinds := kinds[i := AddressKind(limit)];
      UpdateLength(diff);
    }

    method SetOctet(i: nat, o: u8)
      requires Valid() && i < |fields| == |kinds| && fields[i].Single?
      modifies this`fields
      ensures Valid() && fields == old(fields)[i := Single(o)]
    {
      hide Wires, TlvWires, AllFit;
      FitUpdate(fields, kinds, i, Single(o), kinds[i]);
      WiresUpdate(fields, i, Single(o));
      fields := fields[i := Single(o)];
    }

    /** insert_tlv, and the place that insert_before_tlv and insert_after_tlv find. */
    method InsertAt(i: nat, t: Tlv)
      requires Valid() && i <= |tlvs| && |t.value| < 0x1_0000
      requires commandLength + |t.value| + 4 < 0x1_0000_0000
      modifies this`commandLength, this`tlvs
      ensures Valid() && tlvs == old(tlvs[..i] + [t] + tlvs[i..])
      ensures commandLength == old(commandLength) + |t.value| + 4
    {
      hide Wires, TlvWires;
      TlvsOne(t);
      TlvsJoin(tlvs[..i], tlvs[i..]);
      assert tlvs == tlvs[..i] + tlvs[i..];
      TlvsJoin(tlvs[..i], [t]);
      TlvsJoin(tlvs[..i] + [t], tlvs[i..]);
      tlvs := tlvs[..i] + [t] + tlvs[i..];
      UpdateLength(|t.value| + 4);
    }

    method InsertBefore(t: Tlv, tag: u16) returns (ok: bool)
      requires Valid() && |t.value| < 0x1_0000 && commandLength + |t.value| + 4 < 0x1_0000_0000
      modifies this`commandLength, this`tlvs
      ensures Valid() && ok == exists i :: 0 <= i < |old(tlvs)| && old(tlvs)[i].tag == tag
      ensures var i := FirstWith(old(tlvs), tag);
              tlvs == if ok then old(tlvs)[..i] + [t] + old(tlvs)[i..] else old(tlvs)
    {
      var i := 0;
      while i < |tlvs| && tlvs[i].tag != tag
        invariant i <= FirstWith(tlvs, tag)
      {
        i := i + 1;
      }
      ok := i < |tlvs|;
      if ok {
        InsertAt(i, t);
      }
    }

    method InsertAfter(t: Tlv, tag: u16) returns (ok: bool)
      requires Valid() && |t.value| < 0x1_0000 && commandLength + |t.value| + 4 < 0x1_0000_0000
      modifies this`commandLength, this`tlvs
      ensures Valid() && ok == exists i :: 0 <= i < |old(tlvs)| && old(tlvs)[i].tag == tag
      ensures var i := PastLast(old(tlvs), tag);
              tlvs == if ok then old(tlvs)[..i] + [t] + old(tlvs)[i..] else old(tlvs)
    {
      var i := |tlvs|;
      while i > 0 && tlvs[i - 1].tag != tag
        invariant PastLast(tlvs, tag) <= i <= |tlvs|
      {
        i := i - 1;
      }
      ok := i > 0;
      if ok {
        InsertAt(i, t);
      }
    }

    /** Erases every TLV with the tag, searching on from where the last one was. */
    method RemoveTlv(tag: u16)
      requires Valid()
      modifies this`commandLength, this`tlvs
      ensures Valid() && tlvs == Without(old(tlvs), tag)
    {
      hide *;
      var i: nat := 0;
      WithoutEnds(tlvs, tag);
      while i < |tlvs|
        invariant Valid() && i <= |tlvs| && WithoutFrom(tlvs, i, tag) == Without(old(tlvs), tag)
        decreases |tlvs| - i
      {
        WithoutStep(tlvs, i, tag);
        if tlvs[i].tag == tag {
          EraseOne(i);
        } else {
          i := i + 1;
        }
      }
      WithoutEnds(tlvs, tag);
    }

    method EraseOne(i: nat)
      requires Valid() && i < |tlvs|
      modifies this`commandLength, this`tlvs
      ensures Valid() && tlvs == old(tlvs[..i] + tlvs[i + 1..])
    {
      hide Wires, TlvWires, AllFit;
      var t := tlvs[i];
      TlvsOne(t);
      TlvsJoin(tlvs[..i], [t]);
      TlvsJoin(tlvs[..i] + [t], tlvs[i + 1..]);
      TlvsJoin(tlvs[..i], tlvs[i + 1..]);
      assert tlvs == tlvs[..i] + [t] + tlvs[i + 1..];
      tlvs := tlvs[..i] + tlvs[i + 1..];
      UpdateLength(0 - (|t.value| + 4));
    }

    /** Writes header, fields and TLVs; the buffer is exactly full. */
    method Encode(big: bool)
      requires Valid()
      modifies buff
      ensures buff.Valid() && fresh(buff.data)
      ensures buff.data.Length == commandLength && buff.data[..] == Encoding(Value())
      ensures Stands(buff.data[..], commandLength, Value())
    {
      hide Wires, TlvWires, AllFit, Wire, TlvWire, HeaderOctets, Stands, Buffer.Contents, Buffer.Valid;
      buff.Reset(commandLength);
      EncodeHeader(big);
      EncodeFields();
      EncodeTlvs(big);
      buff.Full();
      EncodingStands(Value());
    }

    method EncodeHeader(big: bool)
      requires buff.Valid() && buff.offset == 0 && 16 <= buff.data.Length
      modifies buff`offset, buff.data
      ensures buff.Valid() && buff.offset == 16 && buff.Contents() == HeaderOctets(commandLength, Value())
    {
      hide *;
      buff.Empty();
      HeaderWords(buff.Contents(), commandLength, Value());
      buff.AppendWord(big, commandLength);
      buff.AppendWord(big, id);
      buff.AppendWord(big, status);
      buff.AppendWord(big, sequence);
      ValueIs();
    }

    lemma ValueIs()
      ensures Value() == Pdu(id, status, sequence, fields, tlvs)
    {
    }

    method EncodeFields()
      requires buff.Valid() && buff.offset + |Wires(fields)| <= buff.data.Length
      modifies buff`offset, buff.data
      ensures buff.Valid() && buff.offset == old(buff.offset) + |Wires(fields)|
      ensures buff.Contents() == old(buff.Contents()) + Wires(fields)
    {
      hide *;
      NoWires();
      var i: nat := 0;
      while i < |fields|
        invariant i <= |fields| && buff.Valid()
        invariant buff.offset == old(buff.offset) + |Wires(fields[..i])|
        invariant buff.Contents() == old(buff.Contents()) + Wires(fields[..i])
      {
        WiresAt(fields, i);
        buff.AppendField(fields[i]);
        i := i + 1;
      }
      assert fields[..i] == fields;
    }

    method EncodeTlvs(big: bool)
      requires Sized(tlvs) && buff.Valid() && buff.offset + |TlvWires(tlvs)| <= buff.data.Length
      modifies buff`offset, buff.data
      ensures buff.Valid() && buff.offset == old(buff.offset) + |TlvWires(tlvs)|
      ensures buff.Contents() == old(buff.Contents()) + TlvWires(tlvs)
    {
      hide TlvWires, TlvWire, Buffer.Contents;
      NoWires();
      var i: nat := 0;
      while i < |tlvs|
        invariant i <= |tlvs| && buff.Valid()
        invariant buff.offset == old(buff.offset) + |TlvWires(tlvs[..i])|
        invariant buff.Contents() == old(buff.Contents()) + TlvWires(tlvs[..i])
      {
        TlvsAt(tlvs, i);
        buff.AppendTlv(big, tlvs[i]);
        i := i + 1;
      }
      assert tlvs[..i] == tlvs;
    }

    /**
     Reads the header, each field in turn, and TLVs up to the command_length just read. After
     a failure the fields already read keep their new values.
     */
    method Decode(b: seq<u8>) returns (r: Outcome<()>)
      requires |fields| == |kinds|
      modifies this
      ensures var s := ReadInto(old(TheLayout()), old(tlvs), b);
              && (r.Ok? <==> s.Ok?) && (r.Error? <==> s.Error?)
              && (r.Ok? ==> Value() == s.value && commandLength == Word(b, 0))
      ensures kinds == old(kinds)
      ensures r.Ok? && EndsChecked(kinds) && Sized(old(tlvs)) ==> (Valid() <==> old(tlvs) == [])
    {
      hide ReadFields, ReadTlvs, HasTags, Word, Valid;
      if |b| < 16 {
        return Overrun;
      }
      commandLength, id, status, sequence := Word(b, 0), Word(b, 4), Word(b, 8), Word(b, 12);
      if commandLength < 16 {
        return Error;
      }
      var f := DecodeFields(b);
      if !f.Ok? {
        return if f.Error? then Error else Overrun;
      }
      if commandLength < f.value {
        return Error;
      }
      var t := DecodeTlvs(b, f.value);
      if !t.Ok? {
        return t;
      }
      if !HasTags(tlvs, mandatory) {
        return Error;
      }
      r := Ok(());
      if EndsChecked(kinds) && Sized(old(tlvs)) {
        LengthAfterReading(TheLayout(), old(tlvs), b, Value());
        ValidIs();
      }
    }

    lemma ValidIs()
      ensures Valid() <==> AllFit(fields, kinds) && Sized(tlvs)
                           && 16 + |Body(Value())| < 0x1_0000_0000 && commandLength == 16 + |Body(Value())|
    {
    }

    method DecodeFields(b: seq<u8>) returns (r: Outcome<nat>)
      requires |fields| == |kinds| && 16 <= |b|
      modifies this`fields
      ensures var s := ReadFields(kinds, b, 16, commandLength);
              && (r.Ok? <==> s.Ok?) && (r.Error? <==> s.Error?)
              && (r.Ok? ==> fields == s.value.0 && r.value == s.value.1)
    {
      hide ReadField, ReadFields;
      var i, offset: nat := 0, 16;
      assert kinds[0..] == kinds;
      PrependNothing(ReadFields(kinds, b, 16, commandLength));
      while i < |kinds|
        invariant i <= |kinds| == |fields| && offset <= |b|
        invariant ReadFields(kinds, b, 16, commandLength)
               == Prepend(fields[..i], ReadFields(kinds[i..], b, offset, commandLength))
      {
        FieldsStep(kinds, i, b, offset, commandLength);
        var f := ReadOne(kinds[i], b, offset, commandLength);
        if !f.Ok? {
          return if f.Error? then Error else Overrun;
        }
        PrependMore(fields[..i], f.value.0, ReadFields(kinds[i + 1..], b, f.value.1, commandLength));
        fields := fields[i := f.value.0];
        assert fields[..i + 1] == fields[..i] + [f.value.0];
        i, offset := i + 1, f.value.1;
      }
      FieldsDone(b, offset, commandLength);
      assert fields[..i] == fields && kinds[i..] == [];
      r := Ok(offset);
    }

    /** Appends to the TLVs the object holds already. */
    method DecodeTlvs(b: seq<u8>, start: nat) returns (r: Outcome<()>)
      requires start <= |b| && start <= commandLength
      modifies this`tlvs
      ensures var s := ReadTlvs(b, start, commandLength);
              && (r.Ok? <==> s.Ok?) && (r.Error? <==> s.Error?)
              && (r.Ok? ==> tlvs == old(tlvs) + s.value.0)
    {
      hide ReadTlv, ReadTlvs;
      var at := start;
      ghost var done: seq<Tlv> := [];
      PrependNothing(ReadTlvs(b, start, commandLength));
      while at < commandLength
        invariant at <= |b| && at <= commandLength && tlvs == old(tlvs) + done
        invariant ReadTlvs(b, start, commandLength) == Prepend(done, ReadTlvs(b, at, commandLength))
        decreases commandLength - at
      {
        TlvsStep(b, at, commandLength);
        var t := ReadTlv(b, at, commandLength);
        if !t.Ok? {
          return if t.Error? then Error else Overrun;
        }
        PrependMore(done, t.value.0, ReadTlvs(b, t.value.1, commandLength));
        done := done + [t.value.0];
        tlvs := tlvs + [t.value.0];
        at := t.value.1;
      }
      TlvsStep(b, at, commandLength);
      r := Ok(());
    }
  }

  /** valid_length: at most max octets are looked at. */
  method ValidLength(b: seq<u8>, at: nat, max: nat) returns (r: Outcome<seq<u8>>)
    requires at <= |b|
    ensures r == ReadText(b, at, max)
  {
    var i := 0;
    while i < max
      invariant 0 <= i <= max && at + i <= |b|
      invariant forall k :: at <= k < at + i ==> b[k] != 0
    {
      if at + i == |b| {
        assert Terminator(b, at) == |b|;
        return Overrun;
      }
      if b[at + i] == 0 {
        assert Terminator(b, at) == at + i;
        return Ok(b[at..at + i]);
      }
      i := i + 1;
    }
    assert Terminator(b, at) >= at + max;
    r := Error;
  }

  /** SmeAddress::decode, with len - at octets left. */
  method DecodeAddress(max: nat, b: seq<u8>, at: nat, len: nat) returns (r: Outcome<(Field, nat)>)
    requires at <= |b|
    ensures r == ReadAddress(max, b, at, len)
  {
    hide ReadText;
    if at <= len < at + 3 {
      return Error;
    }
    if |b| < at + 2 {
      return Overrun;
    }
    var s := ValidLength(b, at + 2, max);
    if !s.Ok? {
      return if s.Error? then Error else Overrun;
    }
    r := Got(Address(b[at], b[at + 1], s.value), at + |s.value| + 3);
  }

  method ReadOne(k: Kind, b: seq<u8>, at: nat, len: nat) returns (r: Outcome<(Field, nat)>)
    requires at <= |b|
    ensures r == ReadField(k, b, at, len)
  {
    hide ReadText;
    match k
    case TextKind(max) =>
      var s := ValidLength(b, at, max);
      if !s.Ok? {
        return if s.Error? then Error else Overrun;
      }
      r := if len < at + |s.value| + 1 then Error else Got(Text(s.value), at + |s.value| + 1);
    case SingleKind(checked) =>
      if at == |b| {
        return Overrun;
      }
      r := if checked && len < at + 1 then Error else Got(Single(b[at]), at + 1);
    case AddressKind(max) =>
      r := DecodeAddress(max, b, at, len);
      if r.Ok? && len < r.value.1 {
        r := Error;
      }
  }

  lemma PrependNothing<T>(r: Outcome<(seq<T>, nat)>)
    ensures Prepend([], r) == r
  {
    if r.Ok? {
      assert [] + r.value.0 == r.value.0;
    }
  }

  lemma PrependMore<T>(done: seq<T>, x: T, r: Outcome<(seq<T>, nat)>)
    ensures Prepend(done, Prepend([x], r)) == Prepend(done + [x], r)
  {
    if r.Ok? {
      assert done + ([x] + r.value.0) == done + [x] + r.value.0;
    }
  }

  lemma FieldsStep(ks: seq<Kind>, i: nat, b: seq<u8>, at: nat, len: nat)
    requires i < |ks| && at <= |b|
    ensures ReadFields(ks[i..], b, at, len)
         == match ReadField(ks[i], b, at, len)
            case Ok(v) => Prepend([v.0], ReadFields(ks[i + 1..], b, v.1, len))
            case Error => Error
            case Overrun => Overrun
  {
    hide ReadField, Prepend;
    assert ks[i..][1..] == ks[i + 1..];
  }

  lemma FieldsDone(b: seq<u8>, at: nat, len: nat)
    requires at <= |b|
    ensures ReadFields([], b, at, len) == Ok(([], at))
  {
  }

  lemma TlvsStep(b: seq<u8>, at: nat, len: nat)
    requires at <= |b| && at <= len
    ensures ReadTlvs(b, at, len)
         == if at == len then Ok(([], at))
            else match ReadTlv(b, at, len)
                 case Ok(v) => Prepend([v.0], ReadTlvs(b, v.1, len))
                 case Error => Error
                 case Overrun => Overrun
  {
    hide ReadTlv, Prepend;
  }

  /** TLVs that were there before the decode are not part of the command_length it read. */
  lemma LengthAfterReading(l: Layout, prior: seq<Tlv>, b: seq<u8>, p: Pdu)
    requires EndsChecked(l.kinds) && Sized(prior) && ReadInto(l, prior, b) == Ok(p)
    ensures AllFit(p.fields, l.kinds) && Sized(p.tlvs)
    ensures 16 + |Body(p)| == Word(b, 0) + |TlvWires(prior)|
    ensures TlvWires(prior) == [] <==> prior == []
  {
    hide Word, Wires, AllFit, ReadFields, ReadTlvs, HasTags;
    FieldsBackward(l.kinds, b, 16, Word(b, 0));
    var v := ReadFields(l.kinds, b, 16, Word(b, 0)).value;
    TlvsBackward(b, v.1, Word(b, 0));
    TlvsJoin(prior, ReadTlvs(b, v.1, Word(b, 0)).value.0);
  }

  /** The four words of the header in their places, then the fields, then the TLVs. */
  predicate Stands(b: seq<u8>, length: nat, p: Pdu)
    requires Sized(p.tlvs)
  {
    && |b| == length >= 16
    && Word(b, 0) == length && Word(b, 4) == p.id && Word(b, 8) == p.status && Word(b, 12) == p.sequence
    && b[16..] == Wires(p.fields) + TlvWires(p.tlvs)
  }

  lemma EncodingStands(p: Pdu)
    requires Sized(p.tlvs) && 16 + |Body(p)| < 0x1_0000_0000
    ensures var b := Encoding(p);
            |b| == 16 + |Body(p)| && Stands(b, |b|, p)
  {
    hide Word, HeaderOctets, Wires, TlvWires;
    var b := Encoding(p);
    assert b[..16] == HeaderOctets(|b|, p);
    HeaderIff(b, |b|, p);
  }

  lemma NoWires()
    ensures Wires([]) == [] && Sized([]) && TlvWires([]) == []
  {
  }

  lemma HeaderWords(c: seq<u8>, length: u32, p: Pdu)
    requires c == []
    ensures c + Be32(length) + Be32(p.id) + Be32(p.status) + Be32(p.sequence) == HeaderOctets(length, p)
  {
    hide Octet;
  }

  // ---- Two objects that fail to keep the round trip ----

  lemma {:induction false} NothingVariable(fs: seq<Field>, i: nat)
    requires i <= |fs| && forall k :: 0 <= k < |fs| ==> fs[k].Single? || fs[k].s == []
    ensures VariableFrom(fs, i) == 0
    decreases |fs| - i
  {
    if i < |fs| {
      NothingVariable(fs, i + 1);
    }
  }

  function DataSmFields(): seq<Field> {
    [Text([]), Address(0, 0, []), Address(0, 0, []), Single(0), Single(0), Single(0)]
  }

  lemma DataSmFieldsFit()
    ensures AllFit(DataSmFields(), DataSm(21, 21).kinds) && |Wires(DataSmFields())| == 10
  {
    hide Wires;
    LengthSplits(DataSmFields(), DataSm(21, 21).kinds);
    MinLengths(21, 21);
    NothingVariable(DataSmFields(), 0);
  }

  /**
   The source address of a new data_sm set from a bare address, the PDU encoded, and read
   by another new one: up to 20 characters it arrives, and from 21 on it is an error.
   */
  method SourceAddressReadBack(s: seq<u8>, big: bool) returns (r: Outcome<()>, back: seq<Field>)
    requires 0 !in s && |s| < 65
    ensures if |s| <= 20 then r.Ok? && back == DataSmFields()[1 := Address(0, 0, s)] else r.Error?
  {
    hide ReadInto, Encoding, Wires, TlvWires, AllFit;
    NoWires();
    DataSmFieldsFit();
    var m := new Message(DataSm(21, 21), 0x103, 1, DataSmFields());
    m.SetAddress(1, 0, 0, s, 65);
    m.Encode(big);
    var n := new Message(DataSm(21, 21), 0x103, 1, DataSmFields());
    r := n.Decode(m.buff.data[..]);
    back := n.fields;
    WiderFits(m.fields, m.kinds);
    DataSmReadsBack(m.Value());
  }

  lemma WiderFits(fs: seq<Field>, ks: seq<Kind>)
    requires AllFit(fs, ks) && ks == DataSm(21, 21).kinds[1 := AddressKind(65)]
    ensures AllFit(fs, DataSm(65, 65).kinds)
  {
    assert forall i :: 0 <= i < 6 ==> Fits(fs[i], ks[i]);
  }

  lemma FourTlvs(ts: seq<Tlv>)
    requires |ts| == 4 && Sized(ts)
    ensures |TlvWires(ts)| == |ts[0].value| + |ts[1].value| + |ts[2].value| + |ts[3].value| + 16
  {
    hide TlvWires;
    TlvsAt(ts, 0);
    TlvsAt(ts, 1);
    TlvsAt(ts, 2);
    TlvsAt(ts, 3);
    NoWires();
    assert ts[..0] == [] && ts[..4] == ts;
  }

  /** What the default constructor of broadcast_sm inserts. */
  function BroadcastTlvs(): (ts: seq<Tlv>)
    ensures Sized(ts) && |TlvWires(ts)| == 25 && HasTags(ts, BroadcastSm().mandatory)
  {
    var ts := [Tlv(0x0606, [0]), Tlv(0x0601, [0, 0, 0]), Tlv(0x0604, [0, 0]), Tlv(0x0605, [0, 0, 0])];
    FourTlvs(ts);
    assert ts[0].tag == 0x0606 && ts[1].tag == 0x0601 && ts[2].tag == 0x0604 && ts[3].tag == 0x0605;
    ts
  }

  function BroadcastFields(): seq<Field> {
    [Text([]), Address(0, 0, []), Text([]), Single(0), Text([]), Text([]), Single(0), Single(0), Single(0)]
  }

  lemma BroadcastFieldsFit()
    ensures AllFit(BroadcastFields(), BroadcastSm().kinds) && |Wires(BroadcastFields())| == 11
  {
    hide Wires;
    LengthSplits(BroadcastFields(), BroadcastSm().kinds);
    MinLengths(21, 21);
    NothingVariable(BroadcastFields(), 0);
  }

  method NewBroadcastSm() returns (m: Message)
    ensures m.Valid() && fresh(m) && fresh(m.buff) && m.TheLayout() == BroadcastSm()
    ensures m.Value() == Pdu(0x111, 0, 1, BroadcastFields(), BroadcastTlvs())
  {
    hide Wires, TlvWires, AllFit, HasTags;
    NoWires();
    BroadcastFieldsFit();
    m := new Message(BroadcastSm(), 0x111, 1, BroadcastFields());
    m.InsertAt(|m.tlvs|, Tlv(0x0606, [0]));
    m.InsertAt(|m.tlvs|, Tlv(0x0601, [0, 0, 0]));
    m.InsertAt(|m.tlvs|, Tlv(0x0604, [0, 0]));
    m.InsertAt(|m.tlvs|, Tlv(0x0605, [0, 0, 0]));
  }

  /**
   A default-constructed broadcast_sm reading a PDU: its own four TLVs stand in for the
   mandatory ones, whatever the PDU has, and the next encode writes 25 octets more than
   the command_length that the buffer is sized by.
   */
  method ReadIntoDefault(b: seq<u8>) returns (r: Outcome<()>, length: u32, p: Pdu)
    ensures r.Ok? <==> ReadPdu(Layout(BroadcastSm().kinds, {}), b).Ok?
    ensures r.Ok? ==> Sized(p.tlvs) && 16 + |Body(p)| == length + 25
  {
    hide ReadInto, Body, BroadcastTlvs, BroadcastFields, BroadcastSm, EndsChecked;
    var m := NewBroadcastSm();
    r := m.Decode(b);
    length, p := m.commandLength, m.Value();
    NothingMissing(BroadcastSm(), BroadcastTlvs(), b);
    TablesEndChecked(21, 21);
    if r.Ok? {
      LengthAfterReading(BroadcastSm(), BroadcastTlvs(), b, p);
    }
  }

  /** TLVs that are there already satisfy the check for mandatory ones. */
  lemma NothingMissing(l: Layout, prior: seq<Tlv>, b: seq<u8>)
    requires HasTags(prior, l.mandatory)
    ensures ReadInto(l, prior, b).Ok? <==> ReadPdu(Layout(l.kinds, {}), b).Ok?
  {
    hide ReadFields, ReadTlvs, Word;
    forall more: seq<Tlv>
      ensures HasTags(prior + more, l.mandatory)
    {
      forall tag | tag in l.mandatory
        ensures exists i :: 0 <= i < |prior + more| && (prior + more)[i].tag == tag
      {
        var i :| 0 <= i < |prior| && prior[i].tag == tag;
        assert (prior + more)[i].tag == tag;
      }
    }
  }
}
