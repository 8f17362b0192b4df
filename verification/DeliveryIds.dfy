/**
 The message id that a delivery report is matched by. Providers may report in decimal what
 they acknowledged in hexadecimal, so a numeric id is turned into hexadecimal first.
 */
module DeliveryIds {
  import opened Bytes
  import opened Messages

  predicate IsDigit(c: u8) {
    48 <= c <= 57
  }

  predicate AllDigits(s: seq<u8>) {
    forall i :: 0 <= i < |s| ==> IsDigit(s[i])
  }

  /** string_is_number_only: digits behind an optional minus sign, which may even stand alone. */
  predicate NumberOnly(s: seq<u8>) {
    s != [] && if s[0] == 45 then AllDigits(s[1..]) else AllDigits(s)
  }

  /** The number that decimal digits stand for. */
  function Number(s: seq<u8>): nat
    requires AllDigits(s)
  {
    if s == [] then 0 else 10 * Number(s[..|s| - 1]) + (s[|s| - 1] - 48)
  }

  function Saturated(n: nat): u32 {
    if n < 0xffff_ffff then n else 0xffff_ffff
  }

  /**
   What extraction from a stream leaves in an unsigned int. Beyond its range the largest
   value is stored; of a negative number in range some libraries store the two's complement.
   */
  function Extracted(s: seq<u8>, wraps: bool): u32
    requires NumberOnly(s)
  {
    if s[0] != 45 then Saturated(Number(s))
    else
      var n := Number(s[1..]);
      if n == 0 then 0 else if wraps && n <= 0xffff_ffff then 0x1_0000_0000 - n else 0xffff_ffff
  }

  /** toupper. */
  function Upper(c: u8): u8 {
    if 97 <= c <= 122 then c - 32 else c
  }

  /** sprintf's %x, then to_upper. */
  function HexText(n: nat): (s: seq<u8>)
    ensures s != []
  {
    (if n < 16 then [] else HexText(n / 16)) + [Upper(HexDigit(n % 16))]
  }

  /** real_message_id. The conversion never comes out empty, so the way back to the id as it was is not taken. */
  function RealId(id: seq<u8>, usingHex: bool, wraps: bool): seq<u8> {
    if usingHex && NumberOnly(id) then HexText(Extracted(id, wraps)) else id
  }

  // ---- Hexadecimal numerals ----

  predicate IsHexDigit(c: u8) {
    IsDigit(c) || 65 <= c <= 70 || 97 <= c <= 102
  }

  function DigitValue(c: u8): (v: nat)
    requires IsHexDigit(c)
    ensures v < 16
  {
    if c <= 57 then c - 48 else if c <= 70 then c - 55 else c - 87
  }

  predicate AllHex(s: seq<u8>) {
    forall i :: 0 <= i < |s| ==> IsHexDigit(s[i])
  }

  function HexNumber(s: seq<u8>): nat
    requires AllHex(s)
  {
    if s == [] then 0 else 16 * HexNumber(s[..|s| - 1]) + DigitValue(s[|s| - 1])
  }

  /** In upper or lower case or both, and without leading zeros. */
  predicate HexNumeral(s: seq<u8>) {
    s != [] && AllHex(s) && (s[0] == 48 ==> |s| == 1)
  }

  lemma DigitsOfValues(c: u8, n: nat)
    requires n < 16
    ensures Lower(Upper(HexDigit(n))) == Lower(c) <==> IsHexDigit(c) && DigitValue(c) == n
    ensures Upper(HexDigit(n)) == 48 <==> n == 0
  {
  }

  lemma NumeralFront(s: seq<u8>)
    requires |s| > 1
    ensures HexNumeral(s) <==> HexNumeral(s[..|s| - 1]) && IsHexDigit(s[|s| - 1]) && s[0] != 48
  {
    var t := s[..|s| - 1];
    assert s == t + [s[|s| - 1]];
  }

  lemma {:induction false} NumeralPositive(s: seq<u8>)
    requires HexNumeral(s) && s[0] != 48
    ensures HexNumber(s) > 0
  {
    if |s| > 1 {
      NumeralFront(s);
      NumeralPositive(s[..|s| - 1]);
    } else {
      assert s[..0] == [];
    }
  }

  lemma SameFront(a: seq<u8>, x: u8, b: seq<u8>, y: u8)
    ensures SameId(a + [x], b + [y]) <==> SameId(a, b) && Lower(x) == Lower(y)
  {
    if SameId(a + [x], b + [y]) {
      assert forall i :: 0 <= i < |a| ==> (a + [x])[i] == a[i] && (b + [y])[i] == b[i];
      assert (a + [x])[|a|] == x && (b + [y])[|b|] == y;
    }
  }

  lemma OneDigit(c: u8, n: nat)
    ensures SameId([c], HexText(n)) <==> HexNumeral([c]) && HexNumber([c]) == n
  {
    assert [c][..0] == [];
    if n < 16 {
      hide HexDigit, Upper, Lower;
      DigitsOfValues(c, n);
      assert HexText(n) == [Upper(HexDigit(n))];
    } else {
      assert |HexText(n)| > 1;
    }
  }

  lemma FrontDecides(front: seq<u8>, last: u8, n: nat)
    requires front != []
    ensures var s := front + [last];
            HexNumeral(s) && HexNumber(s) == n
            <==> n >= 16 && HexNumeral(front) && HexNumber(front) == n / 16 && IsHexDigit(last) && DigitValue(last) == n % 16
  {
    hide IsHexDigit, DigitValue;
    var s := front + [last];
    NumeralFront(s);
    assert s[..|s| - 1] == front;
    if HexNumeral(front) {
      if front[0] == 48 {
        assert front == [48] && [48][..0] == [];
        ZeroDigit();
        assert HexNumber(front) == 0;
      } else {
        NumeralPositive(front);
      }
    }
  }

  lemma ZeroDigit()
    ensures IsHexDigit(48) && DigitValue(48) == 0
  {
  }

  /** The text of a number is the one numeral of that number, letter case aside. */
  lemma {:induction false} HexTextIff(s: seq<u8>, n: nat)
    ensures SameId(s, HexText(n)) <==> HexNumeral(s) && HexNumber(s) == n
    decreases |s|
  {
    hide HexNumeral, HexNumber, HexDigit, Upper, Lower, SameId, DigitValue, IsHexDigit;
    if |s| <= 1 {
      if s == [] {
        LengthsDiffer(s, HexText(n));
      } else {
        assert s == [s[0]];
        OneDigit(s[0], n);
      }
    } else {
      var front, last := s[..|s| - 1], s[|s| - 1];
      assert s == front + [last];
      FrontDecides(front, last, n);
      if n < 16 {
        LengthsDiffer(s, HexText(n));
      } else {
        DigitsOfValues(last, n % 16);
        SameFront(front, last, HexText(n / 16), Upper(HexDigit(n % 16)));
        HexTextIff(front, n / 16);
      }
    }
  }

  lemma LengthsDiffer(a: seq<u8>, b: seq<u8>)
    requires |a| != |b|
    ensures !SameId(a, b)
    ensures a == [] ==> !HexNumeral(a)
  {
  }

  /**
   With the conversion, a report with a decimal id is for exactly the messages whose id is
   the hexadecimal numeral of that number, the numbers from 2^32 - 1 on being one.
   */
  lemma DecimalReportMatches(ack: seq<u8>, id: seq<u8>, wraps: bool)
    requires id != [] && AllDigits(id)
    ensures SameId(ack, RealId(id, true, wraps)) <==> HexNumeral(ack) && HexNumber(ack) == Saturated(Number(id))
  {
    hide HexText, HexNumeral, HexNumber, Number, SameId;
    HexTextIff(ack, Saturated(Number(id)));
  }

  /** Two decimal ids are told apart exactly when their numbers differ and are not both out of range. */
  lemma ToldApartIff(a: seq<u8>, b: seq<u8>, wraps: bool)
    requires a != [] && b != [] && AllDigits(a) && AllDigits(b)
    ensures SameId(RealId(a, true, wraps), RealId(b, true, wraps))
       <==> Number(a) == Number(b) || (Number(a) >= 0xffff_ffff && Number(b) >= 0xffff_ffff)
  {
    hide HexText, HexNumeral, HexNumber, Number, SameId;
    var t := HexText(Saturated(Number(a)));
    SameAsItself(t);
    HexTextIff(t, Saturated(Number(a)));
    HexTextIff(t, Saturated(Number(b)));
  }

  lemma SameAsItself(s: seq<u8>)
    ensures SameId(s, s)
  {
  }

  // ---- What a report is for ----

  /**
   A report is for a message acknowledged with this id: without the conversion, and for ids
   that are not numbers, if the two are the same, letter case aside; else if the id is the
   hexadecimal numeral of the reported number, as far as an unsigned int holds it.
   */
  predicate IsFor(reported: seq<u8>, ack: seq<u8>, usingHex: bool, wraps: bool) {
    if usingHex && reported != [] && AllDigits(reported) then
      HexNumeral(ack) && HexNumber(ack) == Saturated(Number(reported))
    else if usingHex && reported != [] && reported[0] == 45 && AllDigits(reported[1..]) then
      var n := Number(reported[1..]);
      HexNumeral(ack) &&
      HexNumber(ack) == if n == 0 then 0 else if wraps && n < 0x1_0000_0000 then 0x1_0000_0000 - n else 0xffff_ffff
    else SameText(ack, reported)
  }

  lemma IsForIff(reported: seq<u8>, ack: seq<u8>, usingHex: bool, wraps: bool)
    ensures SameId(ack, RealId(reported, usingHex, wraps)) <==> IsFor(reported, ack, usingHex, wraps)
  {
    hide HexText, HexNumeral, HexNumber, Number, SameId, SameText, AllDigits;
    SameTextIff(ack, reported);
    MinusIsNoDigit(reported);
    if usingHex && NumberOnly(reported) {
      HexTextIff(ack, Extracted(reported, wraps));
    }
  }

  lemma MinusIsNoDigit(s: seq<u8>)
    ensures s != [] && s[0] == 45 ==> !AllDigits(s)
  {
  }

  lemma SameTextIff(a: seq<u8>, b: seq<u8>)
    ensures SameId(a, b) <==> SameText(a, b)
  {
    if |a| == |b| {
      forall i | 0 <= i < |a|
        ensures Lower(a[i]) == Lower(b[i]) <==> SameLetter(a[i], b[i])
      {
      }
    }
  }
}
