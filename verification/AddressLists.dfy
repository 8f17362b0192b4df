/**
 The address lists of submit_multi and submit_multi_resp: a count octet, then up to 255
 entries, each a flagged SME address or distribution list name, or an SME address with an
 error code.
 */
module AddressLists {
  import opened Bytes
  import opened SmppWire
  import opened SmppBuffer
  import opened SmppPdu

  datatype ListKind = Destinations | Unsuccesses

  datatype Entry =
    | Sme(ton: u8, npi: u8, s: seq<u8>)
    | DistributionList(name: seq<u8>)
    | Unsuccess(ton: u8, npi: u8, s: seq<u8>, error: u32)

  function EntryWire(e: Entry): (w: seq<u8>)
    ensures |w| >= 2
  {
    match e
    case Sme(ton, npi, s) => [1] + Wire(Address(ton, npi, s))
    case DistributionList(name) => [2] + Wire(Text(name))
    case Unsuccess(ton, npi, s, error) => Wire(Address(ton, npi, s)) + Be32(error)
  }

  function EntriesWire(es: seq<Entry>): seq<u8> {
    if es == [] then [] else EntryWire(es[0]) + EntriesWire(es[1..])
  }

  function ListWire(es: seq<Entry>): seq<u8>
    requires |es| <= 255
  {
    [|es|] + EntriesWire(es)
  }

  predicate Belongs(k: ListKind, e: Entry) {
    if e.Unsuccess? then k == Unsuccesses else k == Destinations
  }

  /** Distribution list names have no length limit. */
  predicate EntryFits(k: ListKind, e: Entry) {
    Belongs(k, e) && if e.DistributionList? then 0 !in e.name else 0 !in e.s && |e.s| < 21
  }

  // ---- Reading ----

  function GotEntry(e: Entry, end: nat): Outcome<(Entry, nat)> {
    Ok((e, end))
  }

  function ReadName(b: seq<u8>, at: nat): (r: Outcome<(Entry, nat)>)
    requires at <= |b|
    ensures r.Ok? ==> r.value.0.DistributionList? && at < r.value.1 <= |b|
  {
    var z := Terminator(b, at);
    if z == |b| then Overrun else GotEntry(DistributionList(b[at..z]), z + 1)
  }

  function ReadDestination(b: seq<u8>, at: nat, len: nat): (r: Outcome<(Entry, nat)>)
    requires at <= |b|
    ensures r.Ok? ==> at < r.value.1 <= |b|
  {
    if at == |b| then Overrun
    else if b[at] == 1 then
      (match ReadAddress(21, b, at + 1, len)
       case Ok(v) => GotEntry(Sme(v.0.ton, v.0.npi, v.0.s), v.1)
       case Error => Error
       case Overrun => Overrun)
    else if b[at] == 2 then ReadName(b, at + 1)
    else Error
  }

  function ReadUnsuccess(b: seq<u8>, at: nat, len: nat): (r: Outcome<(Entry, nat)>)
    requires at <= |b|
    ensures r.Ok? ==> at < r.value.1 <= |b|
  {
    match ReadAddress(21, b, at, len)
    case Ok(v) =>
      if |b| < v.1 + 4 then Overrun
      else GotEntry(Unsuccess(v.0.ton, v.0.npi, v.0.s, Word(b, v.1)), v.1 + 4)
    case Error => Error
    case Overrun => Overrun
  }

  function ReadEntry(k: ListKind, b: seq<u8>, at: nat, len: nat): (r: Outcome<(Entry, nat)>)
    requires at <= |b|
    ensures r.Ok? ==> at < r.value.1 <= |b|
  {
    var r := if k.Destinations? then ReadDestination(b, at, len) else ReadUnsuccess(b, at, len);
    if r.Ok? && len < r.value.1 then Error else r
  }

  function ReadEntries(k: ListKind, n: nat, b: seq<u8>, at: nat, len: nat): (r: Outcome<(seq<Entry>, nat)>)
    requires at <= |b|
    ensures r.Ok? ==> at <= r.value.1 <= |b| && |r.value.0| == n
  {
    if n == 0 then Ok(([], at))
    else match ReadEntry(k, b, at, len)
         case Ok(v) => Prepend([v.0], ReadEntries(k, n - 1, b, v.1, len))
         case Error => Error
         case Overrun => Overrun
  }

  /** Octets that must be left for the list to be looked at at all. */
  function LeastLeft(k: ListKind): nat {
    if k.Destinations? then 3 else 1
  }

  /** decode, on an object whose octet count is at. */
  function ReadList(k: ListKind, b: seq<u8>, at: nat, len: nat): Outcome<(seq<Entry>, nat)> {
    if len < LeastLeft(k) then Error
    else if |b| <= at then Overrun
    else ReadEntries(k, b[at], b, at + 1, len)
  }

  // ---- What is accepted ----

  lemma NameIff(b: seq<u8>, at: nat, name: seq<u8>, end: nat)
    requires at <= |b|
    ensures ReadName(b, at) == Ok((DistributionList(name), end))
       <==> 0 !in name && At(b, at, Wire(Text(name))) && end == at + |name| + 1
  {
    hide Terminator, At;
    TextIsTerminated(b, at, |b| + |name| + 1, name);
  }

  lemma EntryIff(k: ListKind, b: seq<u8>, at: nat, len: nat, e: Entry, end: nat)
    requires at <= |b|
    ensures ReadEntry(k, b, at, len) == Ok((e, end))
       <==> EntryFits(k, e) && At(b, at, EntryWire(e)) && end == at + |EntryWire(e)| && end <= len
  {
    hide ReadAddress, ReadName, At, Word, Wire;
    match e
    case Sme(ton, npi, s) =>
      var f := Address(ton, npi, s);
      AtJoin(b, at, [1], Wire(f));
      OctetAt(b, at, 1);
      if at < |b| {
        AddressIff(21, b, at + 1, len, f, end);
      }
    case DistributionList(name) =>
      AtJoin(b, at, [2], Wire(Text(name)));
      OctetAt(b, at, 2);
      if at < |b| {
        NameIff(b, at + 1, name, end);
      }
    case Unsuccess(ton, npi, s, error) =>
      var f := Address(ton, npi, s);
      AtJoin(b, at, Wire(f), Be32(error));
      AddressIff(21, b, at, len, f, at + |Wire(f)|);
      var r := ReadAddress(21, b, at, len);
      if r.Ok? {
        AddressIff(21, b, at, len, r.value.0, r.value.1);
      }
      WordAt(b, at + |Wire(f)|, error);
  }

  lemma OctetAt(b: seq<u8>, at: nat, x: u8)
    ensures At(b, at, [x]) <==> at < |b| && b[at] == x
  {
    if at < |b| {
      assert b[at..at + 1] == [b[at]];
    }
  }

  lemma WordAt(b: seq<u8>, at: nat, w: u32)
    ensures At(b, at, Be32(w)) <==> at + 4 <= |b| && Word(b, at) == w
  {
    if at + 4 <= |b| {
      WordIff(b, at, w);
    }
  }

  /** Where an entry that was read stands: a flag of 1 or 2 and the rest, or an address and an error code. */
  lemma EntryStands(k: ListKind, b: seq<u8>, at: nat, len: nat)
    requires at <= |b| && ReadEntry(k, b, at, len).Ok?
    ensures var (e, end) := ReadEntry(k, b, at, len).value;
            match e
            case Sme(ton, npi, s) =>
              k.Destinations? && end == at + |s| + 4 <= |b| && b[at] == 1 && b[at + 1] == ton && b[at + 2] == npi
              && b[at + 3..end - 1] == s && b[end - 1] == 0
            case DistributionList(name) =>
              k.Destinations? && end == at + |name| + 2 <= |b| && b[at] == 2 && b[at + 1..end - 1] == name && b[end - 1] == 0
            case Unsuccess(ton, npi, s, error) =>
              k.Unsuccesses? && end == at + |s| + 7 <= |b| && b[at] == ton && b[at + 1] == npi
              && b[at + 2..end - 5] == s && b[end - 5] == 0 && error == Word(b, end - 4)
  {
    hide Word, Terminator;
    if k.Destinations? && b[at] == 1 {
      TextStands(b, at + 3, 21);
    } else if k.Unsuccesses? {
      TextStands(b, at + 2, 21);
    }
  }

  predicate AllEntriesFit(k: ListKind, es: seq<Entry>) {
    forall i :: 0 <= i < |es| ==> EntryFits(k, es[i])
  }

  lemma {:induction false} EntriesIff(k: ListKind, b: seq<u8>, at: nat, len: nat, es: seq<Entry>, end: nat)
    requires at <= |b|
    ensures ReadEntries(k, |es|, b, at, len) == Ok((es, end))
       <==> AllEntriesFit(k, es) && At(b, at, EntriesWire(es)) && end == at + |EntriesWire(es)|
            && (es != [] ==> end <= len)
    decreases |es|
  {
    hide ReadEntry, EntryFits, EntryWire;
    if es != [] {
      var next := at + |EntryWire(es[0])|;
      AtJoin(b, at, EntryWire(es[0]), EntriesWire(es[1..]));
      EntryIff(k, b, at, len, es[0], next);
      assert AllEntriesFit(k, es) <==> EntryFits(k, es[0]) && AllEntriesFit(k, es[1..]);
      if next <= |b| {
        EntriesIff(k, b, next, len, es[1..], end);
      }
      var r := ReadEntry(k, b, at, len);
      if r.Ok? {
        EntryIff(k, b, at, len, r.value.0, r.value.1);
        var rest := ReadEntries(k, |es| - 1, b, r.value.1, len);
        if rest.Ok? {
          ConsIs(r.value.0, rest.value.0, es);
        }
      }
    }
  }

  lemma ConsIs<T>(x: T, rest: seq<T>, es: seq<T>)
    requires es != []
    ensures [x] + rest == es <==> x == es[0] && rest == es[1..]
  {
    if [x] + rest == es {
      assert es[1..] == rest;
    }
    if x == es[0] && rest == es[1..] {
      assert [es[0]] + es[1..] == es;
    }
  }

  /**
   A fresh object's decode accepts exactly the lists that the encoder writes, at the front
   of at least len octets of which len must cover the list, and octet_count is then the
   number of octets consumed.
   */
  lemma ListIff(k: ListKind, b: seq<u8>, len: nat, es: seq<Entry>, end: nat)
    requires |es| <= 255
    ensures ReadList(k, b, 0, len) == Ok((es, end))
       <==> AllEntriesFit(k, es) && At(b, 0, ListWire(es)) && end == |ListWire(es)|
            && end <= len && LeastLeft(k) <= len
  {
    hide ReadEntries, EntriesWire, At, AllEntriesFit;
    AtJoin(b, 0, [|es|], EntriesWire(es));
    OctetAt(b, 0, |es|);
    if |b| > 0 {
      EntriesIff(k, b, 1, len, es, end);
      EntriesNil();
    }
  }

  lemma EntriesNil()
    ensures EntriesWire([]) == []
  {
  }

  /** Handed exactly its encoding, a list comes back; only the empty destination list does not. */
  lemma ListReadsBack(k: ListKind, es: seq<Entry>)
    requires |es| <= 255 && AllEntriesFit(k, es)
    ensures ReadList(k, ListWire(es), 0, |ListWire(es)|) == Ok((es, |ListWire(es)|))
       <==> k == Unsuccesses || es != []
  {
    ListIff(k, ListWire(es), |ListWire(es)|, es, |ListWire(es)|);
    assert At(ListWire(es), 0, ListWire(es));
    if es != [] {
      assert |EntriesWire(es)| >= |EntryWire(es[0])|;
    }
  }

  lemma {:induction false} EntriesJoin(a: seq<Entry>, b: seq<Entry>)
    ensures EntriesWire(a + b) == EntriesWire(a) + EntriesWire(b)
  {
    hide EntryWire;
    if a == [] {
      assert a + b == b;
    } else {
      assert (a + b)[1..] == a[1..] + b;
      EntriesJoin(a[1..], b);
    }
  }

  lemma EntriesSnoc(es: seq<Entry>, e: Entry)
    ensures EntriesWire(es + [e]) == EntriesWire(es) + EntryWire(e)
  {
    hide EntryWire;
    EntriesJoin(es, [e]);
    assert [e][1..] == [];
  }

  lemma EntriesPrefix(es: seq<Entry>, i: nat)
    requires i < |es|
    ensures EntriesWire(es[..i + 1]) == EntriesWire(es[..i]) + EntryWire(es[i])
    ensures |EntriesWire(es[..i])| + |EntryWire(es[i])| <= |EntriesWire(es)|
  {
    hide EntriesWire, EntryWire;
    EntriesSnoc(es[..i], es[i]);
    EntriesJoin(es[..i + 1], es[i + 1..]);
    assert es[..i + 1] == es[..i] + [es[i]];
    assert es == es[..i + 1] + es[i + 1..];
  }

  lemma EntriesStep(k: ListKind, n: nat, b: seq<u8>, at: nat, len: nat)
    requires at <= |b|
    ensures ReadEntries(k, n, b, at, len)
         == if n == 0 then Ok(([], at))
            else match ReadEntry(k, b, at, len)
                 case Ok(v) => Prepend([v.0], ReadEntries(k, n - 1, b, v.1, len))
                 case Error => Error
                 case Overrun => Overrun
  {
    hide ReadEntry, Prepend;
  }

  method DecodeEntry(k: ListKind, b: seq<u8>, at: nat, len: nat) returns (r: Outcome<(Entry, nat)>)
    requires at <= |b|
    ensures r == ReadEntry(k, b, at, len)
  {
    hide ReadAddress, Terminator, Word;
    if k == Unsuccesses {
      var a := DecodeAddress(21, b, at, len);
      if !a.Ok? {
        return if a.Error? then Error else Overrun;
      }
      if |b| < a.value.1 + 4 {
        return Overrun;
      }
      r := GotEntry(Unsuccess(a.value.0.ton, a.value.0.npi, a.value.0.s, Word(b, a.value.1)), a.value.1 + 4);
    } else {
      if at == |b| {
        return Overrun;
      }
      if b[at] == 1 {
        var a := DecodeAddress(21, b, at + 1, len);
        if !a.Ok? {
          return if a.Error? then Error else Overrun;
        }
        r := GotEntry(Sme(a.value.0.ton, a.value.0.npi, a.value.0.s), a.value.1);
      } else if b[at] == 2 {
        r := ReadName(b, at + 1);
        if r.Overrun? {
          return;
        }
      } else {
        return Error;
      }
    }
    if len < r.value.1 {
      r := Error;
    }
  }

  lemma EntryParts(c: seq<u8>, e: Entry)
    ensures c + EntryWire(e)
         == match e
            case Sme(ton, npi, s) => c + [1] + Wire(Address(ton, npi, s))
            case DistributionList(name) => c + [2] + Wire(Text(name))
            case Unsuccess(ton, npi, s, error) => c + Wire(Address(ton, npi, s)) + Be32(error)
    ensures |EntryWire(e)|
         == match e
            case Sme(ton, npi, s) => 1 + |Wire(Address(ton, npi, s))|
            case DistributionList(name) => 1 + |Wire(Text(name))|
            case Unsuccess(ton, npi, s, error) => |Wire(Address(ton, npi, s))| + 4
  {
  }

  /** The first 255, which is all that add lets in. */
  function Capped(es: seq<Entry>): (r: seq<Entry>)
    ensures |r| <= 255
  {
    if |es| <= 255 then es else es[..255]
  }

  lemma ReadAtMost(k: ListKind, b: seq<u8>, at: nat, len: nat)
    ensures var r := ReadList(k, b, at, len);
            r.Ok? ==> |r.value.0| <= 255 && Capped([] + r.value.0) == r.value.0
  {
    hide ReadEntry, ReadEntries;
  }

  lemma CappedNext(es: seq<Entry>, e: Entry)
    ensures Capped(es + [e]) == if |Capped(es)| < 255 then Capped(es) + [e] else Capped(es)
  {
  }

  lemma CappedIs(es: seq<Entry>)
    requires |es| <= 255
    ensures Capped(es) == es
  {
  }

  lemma CappedAgain(es: seq<Entry>, e: Entry)
    ensures Capped(Capped(es) + [e]) == Capped(es + [e])
  {
  }

  // ---- The list object ----

  class AddressList {
    const kind: ListKind
    var entries: seq<Entry>
    var octetCount: nat

    ghost predicate Valid()
      reads this
    {
      |entries| <= 255
    }

    constructor (k: ListKind)
      ensures Valid() && kind == k && entries == [] && octetCount == 0
    {
      kind := k;
      entries := [];
      octetCount := 0;
    }

    /** The value returned is by how much the encoding grew. */
    method Add(e: Entry) returns (added: nat)
      requires Valid() && Belongs(kind, e)
      modifies this`entries
      ensures Valid() && entries == Capped(old(entries) + [e])
      ensures |ListWire(entries)| == |ListWire(old(entries))| + added
      ensures added == 0 <==> |old(entries)| == 255
    {
      hide EntryWire, EntriesWire;
      EntriesSnoc(entries, e);
      if |entries| < 255 {
        entries := entries + [e];
        added := Length(e);
      } else {
        added := 0;
      }
    }

    /** The values returned by any additions in a row sum up to the growth of the encoding. */
    method AddAll(es: seq<Entry>) returns (sum: nat)
      requires Valid() && forall i :: 0 <= i < |es| ==> Belongs(kind, es[i])
      modifies this`entries
      ensures Valid() && entries == Capped(old(entries) + es)
      ensures |ListWire(entries)| == |ListWire(old(entries))| + sum
    {
      hide EntryWire, EntriesWire, Belongs;
      sum := 0;
      for i := 0 to |es|
        invariant Valid() && entries == Capped(old(entries) + es[..i])
        invariant |ListWire(entries)| == |ListWire(old(entries))| + sum
      {
        assert old(entries) + es[..i + 1] == old(entries) + es[..i] + [es[i]];
        CappedAgain(old(entries) + es[..i], es[i]);
        var added := Add(es[i]);
        sum := sum + added;
      }
      assert es[..|es|] == es;
    }

    /** length() + 1 of an SME address, length() + 2 of a name, length() of an unsuccessful SME. */
    static function Length(e: Entry): (n: nat)
      ensures n == |EntryWire(e)|
    {
      match e
      case Sme(_, _, s) => 2 + |s| + 1 + 1
      case DistributionList(name) => |name| + 2
      case Unsuccess(_, _, s, _) => 2 + |s| + 1 + 4
    }

    /** Buffer += list. */
    method AppendTo(buff: Buffer, big: bool)
      requires Valid() && buff.Valid() && buff.offset + |ListWire(entries)| <= buff.data.Length
      modifies buff`offset, buff.data
      ensures buff.Valid() && buff.offset == old(buff.offset) + |ListWire(entries)|
      ensures buff.Contents() == old(buff.Contents()) + ListWire(entries)
    {
      hide EntryWire, EntriesWire, Buffer.Contents, Buffer.Valid;
      var c := ListWire(entries);
      buff.AppendOctet(|entries|);
      var i: nat := 0;
      EntriesNil();
      while i < |entries|
        invariant i <= |entries| && buff.Valid()
        invariant buff.offset == old(buff.offset) + 1 + |EntriesWire(entries[..i])|
        invariant buff.Contents() == old(buff.Contents()) + [|entries|] + EntriesWire(entries[..i])
      {
        EntriesPrefix(entries, i);
        AppendEntry(buff, big, entries[i]);
        i := i + 1;
      }
      assert entries[..i] == entries;
    }

    static method AppendEntry(buff: Buffer, big: bool, e: Entry)
      requires buff.Valid() && buff.offset + |EntryWire(e)| <= buff.data.Length
      modifies buff`offset, buff.data
      ensures buff.Valid() && buff.offset == old(buff.offset) + |EntryWire(e)|
      ensures buff.Contents() == old(buff.Contents()) + EntryWire(e)
    {
      hide *;
      EntryParts(buff.Contents(), e);
      match e
      case Sme(ton, npi, s) =>
        buff.AppendOctet(1);
        buff.AppendField(Address(ton, npi, s));
      case DistributionList(name) =>
        buff.AppendOctet(2);
        buff.AppendField(Text(name));
      case Unsuccess(ton, npi, s, error) =>
        buff.AppendField(Address(ton, npi, s));
        buff.AppendWord(big, error);
    }

    /** Reads on from octetCount, adding to the entries; entries past the 255th are dropped. */
    method Decode(b: seq<u8>, len: nat) returns (r: Outcome<()>)
      requires Valid()
      modifies this
      ensures var s := ReadList(kind, b, old(octetCount), len);
              && (r.Ok? <==> s.Ok?) && (r.Error? <==> s.Error?)
              && (r.Ok? ==> entries == Capped(old(entries) + s.value.0) && octetCount == s.value.1)
      ensures Valid()
    {
      hide ReadEntry, ReadEntries, Capped;
      CappedIs(entries);
      if len < LeastLeft(kind) {
        return Error;
      }
      if |b| <= octetCount {
        return Overrun;
      }
      var cnt := b[octetCount];
      var start := octetCount + 1;
      octetCount := octetCount + 1;
      var i := 0;
      ghost var done: seq<Entry> := [];
      PrependNothing(ReadEntries(kind, cnt, b, start, len));
      assert old(entries) + done == old(entries);
      while i < cnt
        invariant 0 <= i <= cnt && octetCount <= |b|
        invariant entries == Capped(old(entries) + done)
        invariant ReadEntries(kind, cnt, b, start, len)
               == Prepend(done, ReadEntries(kind, cnt - i, b, octetCount, len))
      {
        EntriesStep(kind, cnt - i, b, octetCount, len);
        var e := DecodeEntry(kind, b, octetCount, len);
        if !e.Ok? {
          return if e.Error? then Error else Overrun;
        }
        PrependMore(done, e.value.0, ReadEntries(kind, cnt - i - 1, b, e.value.1, len));
        octetCount := e.value.1;
        CappedNext(old(entries) + done, e.value.0);
        if |entries| < 255 {
          entries := entries + [e.value.0];
        }
        assert old(entries) + (done + [e.value.0]) == old(entries) + done + [e.value.0];
        done := done + [e.value.0];
        i := i + 1;
      }
      EntriesStep(kind, 0, b, octetCount, len);
      assert done + [] == done;
      r := Ok(());
    }
  }

  /**
   Entries added to a new list, encoded, and read back by another: it has the same entries
   and its octet_count is one more than what the additions returned, exactly when every
   entry fits and the list is not an empty destination list.
   */
  method AddThenRead(k: ListKind, es: seq<Entry>, big: bool)
    returns (sum: nat, r: Outcome<()>, back: seq<Entry>, octets: nat)
    requires forall i :: 0 <= i < |es| ==> Belongs(k, es[i])
    ensures r.Ok? && back == Capped(es) && octets == 1 + sum
       <==> AllEntriesFit(k, Capped(es)) && (k == Unsuccesses || es != [])
  {
    hide EntryWire, EntriesWire, Belongs, AllEntriesFit, ReadList;
    var list := new AddressList(k);
    EntriesNil();
    sum := list.AddAll(es);
    assert [] + es == es;
    ghost var w := ListWire(list.entries);
    var buff := new Buffer(1 + sum);
    list.AppendTo(buff, big);
    var copy := new AddressList(k);
    var wire := buff.data[..buff.offset];
    assert wire == w;
    r := copy.Decode(wire, |wire|);
    back, octets := copy.entries, copy.octetCount;
    ReadAtMost(k, w, 0, |w|);
    ListIff(k, w, |w|, list.entries, |w|);
    if AllEntriesFit(k, list.entries) {
      ListReadsBack(k, list.entries);
    }
  }
}
