/** A reader of the data bit stream, after section 7.4 of ISO/IEC 18004:2015, and the round trip
    of every stream the encoder builds. */
module Decoder {
  import opened BitBuffers
  import opened Segments
  import opened Standard
  import opened Wrappers

  /** A value read from the front of a bit string, and the bits behind it. */
  datatype Read<+T> = Read(value: T, rest: seq<bool>)

  function DigitChar(v: nat): Char
    requires v < 10
  {
    v + 48
  }

  function ReadNumeric(bits: seq<bool>, count: nat): Option<Read<seq<Char>>> {
    if count == 0 then Some(Read([], bits))
    else if count == 1 then
      if |bits| < 4 || Field(bits[..4]) >= 10 then None
      else Some(Read([DigitChar(Field(bits[..4]))], bits[4..]))
    else if count == 2 then
      if |bits| < 7 || Field(bits[..7]) >= 100 then None
      else var v := Field(bits[..7]); Some(Read([DigitChar(v / 10), DigitChar(v % 10)], bits[7..]))
    else if |bits| < 10 || Field(bits[..10]) >= 1000 then None
    else
      var v := Field(bits[..10]);
      match ReadNumeric(bits[10..], count - 3)
      case None => None
      case Some(Read(more, rest)) =>
        Some(Read([DigitChar(v / 100), DigitChar(v / 10 % 10), DigitChar(v % 10)] + more, rest))
  }

  function ReadAlphanumeric(bits: seq<bool>, count: nat): Option<Read<seq<Char>>> {
    if count == 0 then Some(Read([], bits))
    else if count == 1 then
      if |bits| < 6 || Field(bits[..6]) >= 45 then None
      else Some(Read([AlphanumericCharacter(Field(bits[..6]))], bits[6..]))
    else if |bits| < 11 || Field(bits[..11]) >= 2025 then None
    else
      var v := Field(bits[..11]);
      match ReadAlphanumeric(bits[11..], count - 2)
      case None => None
      case Some(Read(more, rest)) =>
        Some(Read([AlphanumericCharacter(v / 45), AlphanumericCharacter(v % 45)] + more, rest))
  }

  function ReadBytes(bits: seq<bool>, count: nat): Option<Read<seq<uint8>>> {
    if count == 0 then Some(Read([], bits))
    else if |bits| < 8 || Field(bits[..8]) >= 256 then None
    else
      match ReadBytes(bits[8..], count - 1)
      case None => None
      case Some(Read(more, rest)) => Some(Read([Field(bits[..8])] + more, rest))
  }

  function ReadEci(bits: seq<bool>): Option<Read<nat>> {
    if |bits| >= 8 && !bits[0] then Some(Read(Field(bits[1..8]), bits[8..]))
    else if |bits| >= 16 && bits[0] && !bits[1] then Some(Read(Field(bits[2..16]), bits[16..]))
    else if |bits| >= 24 && bits[0] && bits[1] && !bits[2] then Some(Read(Field(bits[3..24]), bits[24..]))
    else None
  }

  /** One segment: the mode indicator, the character count and the data. */
  function ReadSegment(bits: seq<bool>, version: nat): (r: Option<Read<Payload>>)
    requires 1 <= version <= 40 && |bits| >= 4
  {
    var m := Field(bits[..4]);
    if m == 7 then
      match ReadEci(bits[4..])
      case None => None
      case Some(Read(v, rest)) => Some(Read(EciDesignator(v), rest))
    else if m != 1 && m != 2 && m != 4 then None
    else
      var width := CountWidth(m, version);
      if |bits| < 4 + width then None
      else
        var count, body := Field(bits[4..4 + width]), bits[4 + width..];
        if m == 1 then
          match ReadNumeric(body, count)
          case None => None
          case Some(Read(d, rest)) => Some(Read(NumericText(d), rest))
        else if m == 2 then
          match ReadAlphanumeric(body, count)
          case None => None
          case Some(Read(t, rest)) => Some(Read(AlphanumericText(t), rest))
        else
          match ReadBytes(body, count)
          case None => None
          case Some(Read(d, rest)) => Some(Read(ByteData(d), rest))
  }

  /** The segments up to the terminator, which may be cut short by the end of the symbol. */
  function Decode(bits: seq<bool>, version: nat): Option<seq<Payload>>
    requires 1 <= version <= 40
    decreases |bits|
  {
    if |bits| < 4 || Field(bits[..4]) == 0 then Some([])
    else
      match ReadSegment(bits, version)
      case None => None
      case Some(Read(p, rest)) =>
        if |rest| >= |bits| then None
        else
          match Decode(rest, version)
          case None => None
          case Some(ps) => Some([p] + ps)
  }

  // ----- round trips of the four modes

  lemma {:induction false} HornerSnoc(bits: seq<bool>, b: bool, high: nat)
    ensures Horner(bits + [b], high) == 2 * Horner(bits, high) + if b then 1 else 0
  {
    if bits == [] {
      assert [b][1..] == [];
    } else {
      HornerSnoc(bits[1..], b, 2 * high + if bits[0] then 1 else 0);
      assert (bits + [b])[1..] == bits[1..] + [b];
    }
  }

  /** The encoder's numbers are the numbers in the fields of the standard. */
  lemma {:induction false} FieldIsNumber(bits: seq<bool>)
    ensures Field(bits) == Number(bits)
  {
    if bits != [] {
      var n := |bits| - 1;
      FieldIsNumber(bits[..n]);
      HornerSnoc(bits[..n], bits[n], 0);
      assert bits == bits[..n] + [bits[n]];
    }
  }

  lemma FieldOfBits(v: nat, n: nat)
    requires v < Pow2(n)
    ensures Field(Bits(v, n)) == v
  {
    NumberOfBits(v, n);
    FieldIsNumber(Bits(v, n));
  }

  lemma ReadField(v: nat, n: nat, rest: seq<bool>)
    requires v < Pow2(n)
    ensures Field((Bits(v, n) + rest)[..n]) == v && (Bits(v, n) + rest)[n..] == rest
  {
    hide Field;
    FieldOfBits(v, n);
    assert (Bits(v, n) + rest)[..n] == Bits(v, n);
  }

  lemma TwoDigits(d: seq<Char>)
    requires AllDigits(d) && |d| == 2
    ensures var v := DigitsValue(d); v < 100 && [DigitChar(v / 10), DigitChar(v % 10)] == d
  {
    assert d[..1][..0] == [];
    assert DigitsValue(d[..1]) == Digit(d[0]);
  }

  lemma ThreeDigits(d: seq<Char>)
    requires AllDigits(d) && |d| == 3
    ensures var v := DigitsValue(d); v < 1000 && [DigitChar(v / 100), DigitChar(v / 10 % 10), DigitChar(v % 10)] == d
  {
    TwoDigits(d[..2]);
  }

  lemma {:induction false} NumericRoundTrip(d: seq<Char>, rest: seq<bool>)
    requires AllDigits(d)
    ensures ReadNumeric(NumericBits(d) + rest, |d|) == Some(Read(d, rest))
  {
    hide Field, Bits, Pow2, DigitsValue;
    FieldWidths();
    if |d| == 0 {
      assert NumericBits(d) + rest == rest;
    } else if |d| == 1 {
      OneDigit(d);
      ReadField(DigitsValue(d), 4, rest);
    } else if |d| == 2 {
      TwoDigits(d);
      ReadField(DigitsValue(d), 7, rest);
    } else if |d| >= 3 {
      ThreeDigits(d[..3]);
      var tail := NumericBits(d[3..]) + rest;
      ReadField(DigitsValue(d[..3]), 10, tail);
      NumericRoundTrip(d[3..], rest);
      assert NumericBits(d) + rest == Bits(DigitsValue(d[..3]), 10) + tail;
      assert d == d[..3] + d[3..];
    }
  }

  lemma OneDigit(d: seq<Char>)
    requires AllDigits(d) && |d| == 1
    ensures DigitsValue(d) < 10 && [DigitChar(DigitsValue(d))] == d
  {
    assert d[..0] == [];
  }

  lemma CharRoundTrip(c: Char)
    requires IsCharset(c)
    ensures AlphanumericCharacter(CharsetIndex(c)) == c
  {
    FindIsFirst(ALPHANUMERIC_CHARSET, c, 0);
    CharsetIsStandard(CharsetIndex(c));
  }

  /** The encoder's character set is the one of the standard. */
  lemma CharsetIsStandard(k: nat)
    requires k < 45
    ensures ALPHANUMERIC_CHARSET[k] == AlphanumericCharacter(k)
  {
  }

  /** The encoder's character counts have the widths of the standard. */
  lemma CountWidthsAgree(mode: Mode, version: nat)
    requires 1 <= version <= 40
    ensures NumCharCountBits(mode, version) == CountWidth(ModeBits(mode), version)
  {
  }

  lemma PairValue(a: nat, b: nat)
    requires a < 45 && b < 45
    ensures a * 45 + b < 2025 && (a * 45 + b) / 45 == a && (a * 45 + b) % 45 == b
  {
  }

  lemma {:induction false} AlphanumericRoundTrip(t: seq<Char>, rest: seq<bool>)
    requires AllCharset(t)
    ensures ReadAlphanumeric(AlphanumericBits(t) + rest, |t|) == Some(Read(t, rest))
  {
    hide Field, Bits, Pow2, CharsetIndex, AlphanumericCharacter;
    FieldWidths();
    if |t| == 0 {
      assert AlphanumericBits(t) + rest == rest;
    } else if |t| == 1 {
      assert IsCharset(t[0]) && t == [t[0]];
      CharRoundTrip(t[0]);
      ReadField(CharsetIndex(t[0]), 6, rest);
    } else if |t| >= 2 {
      var a, b := CharsetIndex(t[0]), CharsetIndex(t[1]);
      assert IsCharset(t[0]) && IsCharset(t[1]);
      CharRoundTrip(t[0]); CharRoundTrip(t[1]);
      PairValue(a, b);
      var tail := AlphanumericBits(t[2..]) + rest;
      ReadField(a * 45 + b, 11, tail);
      AlphanumericRoundTrip(t[2..], rest);
      assert AlphanumericBits(t) + rest == Bits(a * 45 + b, 11) + tail;
      assert t == [t[0], t[1]] + t[2..];
    }
  }

  lemma {:induction false} BytesBitsCons(d: seq<uint8>)
    requires d != []
    ensures BytesBits(d) == Bits(d[0], 8) + BytesBits(d[1..])
  {
    hide Bits;
    if |d| > 1 {
      var n := |d| - 1;
      BytesBitsCons(d[..n]);
      var tail := d[1..];
      assert d[..n][1..] == tail[..n - 1] && tail[n - 1] == d[n];
      assert BytesBits(tail) == BytesBits(tail[..n - 1]) + Bits(d[n], 8);
    } else {
      assert d[..0] == [] && d[1..] == [];
    }
  }

  lemma {:induction false} BytesRoundTrip(d: seq<uint8>, rest: seq<bool>)
    ensures ReadBytes(BytesBits(d) + rest, |d|) == Some(Read(d, rest))
  {
    hide Field, Bits, Pow2, BytesBits;
    if d == [] {
      assert BytesBits(d) + rest == rest by { EmptyBytes(); }
    } else {
      EciWidths();
      BytesBitsCons(d);
      var tail := BytesBits(d[1..]) + rest;
      ReadField(d[0], 8, tail);
      BytesRoundTrip(d[1..], rest);
      assert BytesBits(d) + rest == Bits(d[0], 8) + tail;
      assert d == [d[0]] + d[1..];
    }
  }

  lemma EmptyBytes()
    ensures BytesBits([]) == []
  {
  }

  /** A leading zero bit in front of a field. */
  lemma {:induction false} LeadingZero(v: nat, n: nat)
    requires v < Pow2(n)
    ensures Bits(v, n + 1) == [false] + Bits(v, n)
  {
    if n == 0 {
      assert Bits(v, 1) == Bits(0, 0) + [false];
    } else {
      LeadingZero(v / 2, n - 1);
      assert Bits(v, n + 1) == Bits(v / 2, n) + [v % 2 == 1];
    }
  }

  lemma EciRoundTrip(v: nat, rest: seq<bool>)
    requires v < 1000000
    ensures ReadEci(EciBits(v) + rest) == Some(Read(v, rest))
  {
    hide Field, Bits, Pow2;
    EciWidths();
    EciPrefixes();
    var bits := EciBits(v) + rest;
    if v < 128 {
      LeadingZero(v, 7); FieldOfBits(v, 7);
      assert bits[1..8] == Bits(v, 7);
    } else if v < 16384 {
      FieldOfBits(v, 14);
      assert bits[2..16] == Bits(v, 14);
    } else {
      FieldOfBits(v, 21);
      assert bits[3..24] == Bits(v, 21);
    }
  }

  lemma EciPrefixes()
    ensures Bits(2, 2) == [true, false] && Bits(6, 3) == [true, true, false]
  {
    assert Bits(1, 1) == [] + [true];
    assert Bits(3, 2) == Bits(1, 1) + [true];
  }
}
