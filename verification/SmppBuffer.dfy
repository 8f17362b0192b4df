/** The octet buffer that encoders append to, and the host/network byte order functions. */
module SmppBuffer {
  import opened Bytes
  import opened Memory
  import opened SmppWire

  /** hton32, and ntoh32: the octets in opposite order unless the host is big endian. */
  function Hton32(big: bool, w: u32): u32 {
    if big then w else Num32(Octet(w, 3), Octet(w, 2), Octet(w, 1), Octet(w, 0))
  }

  function Hton16(big: bool, w: u16): u16 {
    if big then w else Num16(w / 0x100, w % 0x100)
  }

  lemma NetworkOrder32(big: bool, w: u32)
    ensures NativeStore(big, Hton32(big, w)) == Be32(w)
  {
    OctetsOfNum32(Octet(w, 3), Octet(w, 2), Octet(w, 1), Octet(w, 0));
  }

  lemma NetworkOrder16(big: bool, w: u16)
    ensures NativeStore16(big, Hton16(big, w)) == Be16(w)
  {
  }

  lemma AddressWire(c: seq<u8>, ton: u8, npi: u8, s: seq<u8>)
    ensures c + [ton] + [npi] + s + [0] == c + Wire(Address(ton, npi, s))
  {
  }

  lemma TlvWireIs(c: seq<u8>, t: Tlv)
    requires |t.value| < 0x1_0000
    ensures c + Be16(t.tag) + Be16(|t.value|) + t.value == c + TlvWire(t)
  {
  }

  class Buffer {
    var data: array<u8>
    var offset: nat

    ghost predicate Valid()
      reads this
    {
      offset <= data.Length
    }

    ghost function Contents(): seq<u8>
      reads this, data
      requires Valid()
    {
      data[..offset]
    }

    constructor (len: nat)
      ensures Valid() && Contents() == [] && data.Length == len && fresh(data)
    {
      data := new u8[len];
      offset := 0;
    }

    /** Drops the old octets and allocates len new ones. */
    method Reset(len: nat)
      modifies this
      ensures Valid() && offset == 0 && data.Length == len && fresh(data)
    {
      data := new u8[len];
      offset := 0;
    }

    lemma Empty()
      requires Valid() && offset == 0
      ensures Contents() == []
    {
    }

    lemma Full()
      requires Valid() && offset == data.Length
      ensures Contents() == data[..]
    {
    }

    method Append(s: seq<u8>)
      requires Valid() && offset + |s| <= data.Length
      modifies this`offset, data
      ensures Valid() && offset == old(offset) + |s| && Contents() == old(Contents()) + s
    {
      MemCopy(data, offset, s);
      offset := offset + |s|;
    }

    method AppendOctet(x: u8)
      requires Valid() && offset < data.Length
      modifies this`offset, data
      ensures Valid() && offset == old(offset) + 1 && Contents() == old(Contents()) + [x]
    {
      data[offset] := x;
      offset := offset + 1;
    }

    method AppendWord(big: bool, w: u32)
      requires Valid() && offset + 4 <= data.Length
      modifies this`offset, data
      ensures Valid() && offset == old(offset) + 4 && Contents() == old(Contents()) + Be32(w)
      ensures Be32(w) == [w / 0x100_0000, w / 0x1_0000 % 0x100, w / 0x100 % 0x100, w % 0x100]
    {
      NetworkOrder32(big, w);
      Append(NativeStore(big, Hton32(big, w)));
    }

    method AppendHalf(big: bool, w: u16)
      requires Valid() && offset + 2 <= data.Length
      modifies this`offset, data
      ensures Valid() && offset == old(offset) + 2 && Contents() == old(Contents()) + Be16(w)
    {
      NetworkOrder16(big, w);
      Append(NativeStore16(big, Hton16(big, w)));
    }

    /** Copies the characters, advances past the terminator, and writes it behind. */
    method AppendText(s: seq<u8>)
      requires Valid() && offset + |s| < data.Length
      modifies this`offset, data
      ensures Valid() && offset == old(offset) + |s| + 1 && Contents() == old(Contents()) + s + [0]
    {
      MemCopy(data, offset, s);
      offset := offset + |s| + 1;
      data[offset - 1] := 0;
    }

    method AppendAddress(ton: u8, npi: u8, s: seq<u8>)
      requires Valid() && offset + |s| + 3 <= data.Length
      modifies this`offset, data
      ensures Valid() && offset == old(offset) + |s| + 3
      ensures Contents() == old(Contents()) + Wire(Address(ton, npi, s))
      ensures Wire(Address(ton, npi, s)) == [ton, npi] + s + [0]
    {
      assert Wire(Address(ton, npi, s)) == [ton, npi] + s + [0];
      hide *;
      AddressWire(Contents(), ton, npi, s);
      AppendOctet(ton);
      AppendOctet(npi);
      AppendText(s);
    }

    method AppendField(f: Field)
      requires Valid() && offset + |Wire(f)| <= data.Length
      modifies this`offset, data
      ensures Valid() && offset == old(offset) + |Wire(f)| && Contents() == old(Contents()) + Wire(f)
    {
      match f
      case Text(s) => AppendText(s);
      case Single(o) => AppendOctet(o);
      case Address(ton, npi, s) => AppendAddress(ton, npi, s);
    }

    method AppendTlv(big: bool, t: Tlv)
      requires Valid() && |t.value| < 0x1_0000 && offset + |TlvWire(t)| <= data.Length
      modifies this`offset, data
      ensures Valid() && offset == old(offset) + |TlvWire(t)| && Contents() == old(Contents()) + TlvWire(t)
      ensures TlvWire(t) == [t.tag / 0x100, t.tag % 0x100, |t.value| / 0x100, |t.value| % 0x100] + t.value
    {
      assert TlvWire(t) == [t.tag / 0x100, t.tag % 0x100, |t.value| / 0x100, |t.value| % 0x100] + t.value;
      hide *;
      TlvWireIs(Contents(), t);
      AppendHalf(big, t.tag);
      AppendHalf(big, |t.value|);
      Append(t.value);
    }
  }
}
