/** Text segments: the four factory functions and the bit strings they build. */
module Segments {
  import opened BitBuffers
  import opened Wrappers

  const INT_MAX: nat := 0x7FFF_FFFF

  type uint8 = n: nat | n < 256

  /** A character of a C string, which ends before its first zero. */
  type Char = n: nat | 0 < n < 256 witness 1

  datatype Mode = Numeric | Alphanumeric | Bytes | Kanji | Eci

  function ModeBits(m: Mode): (b: nat)
    ensures 0 < b < 16
  {
    match m
    case Numeric => 0x1
    case Alphanumeric => 0x2
    case Bytes => 0x4
    case Kanji => 0x8
    case Eci => 0x7
  }

  function CharCountTable(m: Mode): (t: seq<nat>)
    ensures |t| == 3 && forall i :: 0 <= i < 3 ==> t[i] <= 16
  {
    match m
    case Numeric => [10, 12, 14]
    case Alphanumeric => [9, 11, 13]
    case Bytes => [8, 16, 16]
    case Kanji => [8, 10, 12]
    case Eci => [0, 0, 0]
  }

  /** The width of the character count field at the given version. */
  function NumCharCountBits(m: Mode, version: nat): (n: nat)
    requires 1 <= version <= 40
    ensures n <= 16
  {
    CharCountTable(m)[(version + 7) / 17]
  }

  datatype Segment = Segment(mode: Mode, numChars: nat, data: seq<bool>)

  /** What a segment stands for: the argument its factory was called with. */
  datatype Payload =
    | NumericText(digits: seq<Char>)
    | AlphanumericText(text: seq<Char>)
    | ByteData(bytes: seq<uint8>)
    | EciDesignator(value: nat)

  // ----- numeric mode

  predicate IsDigit(c: Char) { 48 <= c <= 57 }

  predicate AllDigits(d: seq<Char>) { forall i :: 0 <= i < |d| ==> IsDigit(d[i]) }

  function Digit(c: Char): (v: nat)
    requires IsDigit(c)
    ensures v < 10
  {
    var code: int := c;
    code - 48
  }

  function DigitsValue(d: seq<Char>): nat
    requires AllDigits(d)
  {
    if d == [] then 0 else DigitsValue(d[..|d| - 1]) * 10 + Digit(d[|d| - 1])
  }

  /** Groups of three digits take ten bits; a last group of one or two takes four or seven. */
  function NumericBits(d: seq<Char>): seq<bool>
    requires AllDigits(d)
  {
    if |d| == 0 then []
    else if |d| < 3 then Bits(DigitsValue(d), 3 * |d| + 1)
    else Bits(DigitsValue(d[..3]), 10) + NumericBits(d[3..])
  }

  lemma {:induction false} NumericBitsConcat(a: seq<Char>, b: seq<Char>)
    requires AllDigits(a) && AllDigits(b) && |a| % 3 == 0
    ensures NumericBits(a + b) == NumericBits(a) + NumericBits(b)
  {
    hide Bits, DigitsValue;
    if a == [] {
      assert a + b == b;
    } else {
      NumericBitsConcat(a[3..], b);
      assert (a + b)[..3] == a[..3] && (a + b)[3..] == a[3..] + b;
    }
  }

  lemma FieldWidths()
    ensures Pow2(4) == 16 && Pow2(6) == 64 && Pow2(7) == 128 && Pow2(10) == 1024 && Pow2(11) == 2048
  {
    assert Pow2(4) == 16;
    assert Pow2(7) == 128;
    assert Pow2(10) == 1024;
  }

  lemma {:induction false} DigitsBound(d: seq<Char>)
    requires AllDigits(d) && |d| <= 3
    ensures DigitsValue(d) < if |d| == 0 then 1 else if |d| == 1 then 10 else if |d| == 2 then 100 else 1000
  {
    if d != [] { DigitsBound(d[..|d| - 1]); }
  }

  // ----- alphanumeric mode

  /** The codes of "0123456789ABCDEFGHIJKLMNOPQRSTUVWXYZ $%*+-./:". */
  const ALPHANUMERIC_CHARSET: seq<Char> :=
    [48, 49, 50, 51, 52, 53, 54, 55, 56, 57] +
    ([65, 66, 67, 68, 69, 70, 71, 72, 73, 74, 75, 76, 77] + [78, 79, 80, 81, 82, 83, 84, 85, 86, 87, 88, 89, 90]) +
    [32, 36, 37, 42, 43, 45, 46, 47, 58]

  /** The first position of c in s from i on, or the length of s when it is absent. */
  function Find(s: seq<Char>, c: Char, i: nat): (k: nat)
    requires i <= |s|
    ensures i <= k <= |s|
    decreases |s| - i
  {
    if i == |s| || s[i] == c then i else Find(s, c, i + 1)
  }

  lemma {:induction false} FindIsFirst(s: seq<Char>, c: Char, i: nat)
    requires i <= |s|
    ensures var k := Find(s, c, i); (k < |s| ==> s[k] == c) && forall j :: i <= j < k ==> s[j] != c
    decreases |s| - i
  {
    if i < |s| && s[i] != c { FindIsFirst(s, c, i + 1); }
  }

  /** The value of a character in alphanumeric mode, or 45 when it has none. */
  function CharsetIndex(c: Char): (k: nat)
    ensures k <= 45
  {
    Find(ALPHANUMERIC_CHARSET, c, 0)
  }

  predicate IsCharset(c: Char) { CharsetIndex(c) < 45 }

  predicate AllCharset(t: seq<Char>) { forall i :: 0 <= i < |t| ==> IsCharset(t[i]) }

  /** Pairs of characters take eleven bits; a last single one takes six. */
  function AlphanumericBits(t: seq<Char>): seq<bool>
    requires AllCharset(t)
  {
    if |t| == 0 then []
    else if |t| == 1 then Bits(CharsetIndex(t[0]), 6)
    else Bits(CharsetIndex(t[0]) * 45 + CharsetIndex(t[1]), 11) + AlphanumericBits(t[2..])
  }

  lemma {:induction false} AlphanumericBitsConcat(a: seq<Char>, b: seq<Char>)
    requires AllCharset(a) && AllCharset(b) && |a| % 2 == 0
    ensures AlphanumericBits(a + b) == AlphanumericBits(a) + AlphanumericBits(b)
  {
    hide Bits, CharsetIndex;
    if a == [] {
      assert a + b == b;
    } else {
      AlphanumericBitsConcat(a[2..], b);
      assert (a + b)[2..] == a[2..] + b;
    }
  }

  // ----- byte and ECI mode

  function BytesBits(d: seq<uint8>): seq<bool> {
    if d == [] then [] else BytesBits(d[..|d| - 1]) + Bits(d[|d| - 1], 8)
  }

  /** One, two or three bytes, told apart by the leading bits 0, 10 and 110. */
  function EciBits(v: nat): seq<bool> {
    if v < 128 then Bits(v, 8)
    else if v < 16384 then Bits(2, 2) + Bits(v, 14)
    else Bits(6, 3) + Bits(v, 21)
  }

  // ----- the factories

  /** The arguments the factories accept. */
  predicate Encodable(p: Payload) {
    match p
    case NumericText(d) => AllDigits(d)
    case AlphanumericText(t) => AllCharset(t)
    case ByteData(d) => |d| <= 0x7FFF_FFFF
    case EciDesignator(v) => v < 1000000
  }

  /** The segment a factory returns. */
  function SegmentOf(p: Payload): Segment
    requires Encodable(p)
  {
    match p
    case NumericText(d) => Segment(Numeric, |d|, NumericBits(d))
    case AlphanumericText(t) => Segment(Alphanumeric, |t|, AlphanumericBits(t))
    case ByteData(d) => Segment(Bytes, |d|, BytesBits(d))
    case EciDesignator(v) => Segment(Eci, 0, EciBits(v))
  }

  method MakeBytes(data: seq<uint8>) returns (r: Option<Segment>)
    ensures r.Some? <==> Encodable(ByteData(data))
    ensures r.Some? ==> r.value == SegmentOf(ByteData(data))
  {
    if |data| > INT_MAX { return None; }
    var bb := new BitBuffer();
    for n := 0 to |data|
      invariant bb.bits == BytesBits(data[..n])
    {
      assert data[..n + 1][..n] == data[..n];
      assert Pow2(8) == 256 by { FieldWidths(); }
      var ok := bb.AppendBits(data[n], 8);
    }
    assert data[..|data|] == data;
    return Some(Segment(Bytes, |data|, bb.bits));
  }

  method MakeNumeric(digits: seq<Char>) returns (r: Option<Segment>)
    ensures r.Some? <==> Encodable(NumericText(digits))
    ensures r.Some? ==> r.value == SegmentOf(NumericText(digits))
  {
    hide Bits, Pow2, NumericBits, DigitsValue;
    var bb := new BitBuffer();
    var accumData: nat, accumCount := 0, 0;
    ghost var done := 0;
    EmptyDigits();
    for n := 0 to |digits|
      invariant AllDigits(digits[..n])
      invariant 0 <= accumCount < 3 && done == n - accumCount && 0 <= done && done % 3 == 0
      invariant bb.bits == NumericBits(digits[..done])
      invariant accumData == DigitsValue(digits[done..n])
    {
      if digits[n] < 48 || digits[n] > 57 {
        assert !IsDigit(digits[n]);
        return None;
      }
      assert digits[..n + 1] == digits[..n] + [digits[n]];
      DigitsSnoc(digits[done..n], digits[n]);
      assert digits[done..n] + [digits[n]] == digits[done..n + 1];
      accumData := accumData * 10 + Digit(digits[n]);
      accumCount := accumCount + 1;
      if accumCount == 3 {
        DigitsBound(digits[done..n + 1]); FieldWidths();
        var ok := bb.AppendBits(accumData, 10);
        NumericBitsConcat(digits[..done], digits[done..n + 1]);
        NumericGroup(digits[done..n + 1]);
        assert digits[..done] + digits[done..n + 1] == digits[..n + 1];
        accumData, accumCount, done := 0, 0, n + 1;
        assert digits[done..n + 1] == [];
      }
    }
    assert digits[..|digits|] == digits;
    if accumCount > 0 {
      DigitsBound(digits[done..]); FieldWidths();
      var ok := bb.AppendBits(accumData, accumCount * 3 + 1);
      NumericGroup(digits[done..]);
    }
    NumericBitsConcat(digits[..done], digits[done..]);
    assert digits[..done] + digits[done..] == digits;
    return Some(Segment(Numeric, |digits|, bb.bits));
  }

  lemma EmptyDigits()
    ensures DigitsValue([]) == 0 && NumericBits([]) == []
  {
  }

  lemma DigitsSnoc(d: seq<Char>, c: Char)
    requires AllDigits(d) && IsDigit(c)
    ensures DigitsValue(d + [c]) == DigitsValue(d) * 10 + Digit(c)
  {
    assert (d + [c])[..|d|] == d;
  }

  lemma NumericGroup(d: seq<Char>)
    requires AllDigits(d) && 1 <= |d| <= 3
    ensures NumericBits(d) == Bits(DigitsValue(d), 3 * |d| + 1)
  {
    if |d| == 3 { assert d[..3] == d; }
  }

  method MakeAlphanumeric(text: seq<Char>) returns (r: Option<Segment>)
    ensures r.Some? <==> Encodable(AlphanumericText(text))
    ensures r.Some? ==> r.value == SegmentOf(AlphanumericText(text))
  {
    hide Bits, Pow2, AlphanumericBits, CharsetIndex;
    var bb := new BitBuffer();
    var accumData: nat, accumCount := 0, 0;
    ghost var done := 0;
    AlphanumericGroup([]);
    for n := 0 to |text|
      invariant AllCharset(text[..n])
      invariant 0 <= accumCount < 2 && done == n - accumCount && 0 <= done && done % 2 == 0
      invariant bb.bits == AlphanumericBits(text[..done])
      invariant accumData == if accumCount == 0 then 0 else CharsetIndex(text[done])
    {
      var index := CharsetIndex(text[n]);
      if index == 45 {
        assert !IsCharset(text[n]);
        return None;
      }
      assert text[..n + 1] == text[..n] + [text[n]];
      accumData := accumData * 45 + index;
      accumCount := accumCount + 1;
      if accumCount == 2 {
        FieldWidths();
        var ok := bb.AppendBits(accumData, 11);
        AlphanumericBitsConcat(text[..done], text[done..n + 1]);
        AlphanumericGroup(text[done..n + 1]);
        assert text[..done] + text[done..n + 1] == text[..n + 1];
        accumData, accumCount, done := 0, 0, n + 1;
      }
    }
    assert text[..|text|] == text;
    if accumCount > 0 {
      FieldWidths();
      var ok := bb.AppendBits(accumData, 6);
    }
    AlphanumericGroup(text[done..]);
    AlphanumericBitsConcat(text[..done], text[done..]);
    assert text[..done] + text[done..] == text;
    return Some(Segment(Alphanumeric, |text|, bb.bits));
  }

  lemma AlphanumericGroup(t: seq<Char>)
    requires AllCharset(t) && |t| <= 2
    ensures |t| == 0 ==> AlphanumericBits(t) == []
    ensures |t| == 1 ==> AlphanumericBits(t) == Bits(CharsetIndex(t[0]), 6)
    ensures |t| == 2 ==> AlphanumericBits(t) == Bits(CharsetIndex(t[0]) * 45 + CharsetIndex(t[1]), 11)
  {
    hide CharsetIndex;
  }

  method MakeEci(assignVal: int) returns (r: Option<Segment>)
    ensures r.Some? <==> 0 <= assignVal && Encodable(EciDesignator(assignVal))
    ensures r.Some? ==> r.value == SegmentOf(EciDesignator(assignVal))
  {
    hide Bits, Pow2;
    EciWidths();
    var bb := new BitBuffer();
    if assignVal < 0 {
      return None;
    } else if assignVal < 128 {
      var ok := bb.AppendBits(assignVal, 8);
    } else if assignVal < 16384 {
      var ok := bb.AppendBits(2, 2);
      ok := bb.AppendBits(assignVal, 14);
    } else if assignVal < 1000000 {
      var ok := bb.AppendBits(6, 3);
      ok := bb.AppendBits(assignVal, 21);
    } else {
      return None;
    }
    return Some(Segment(Eci, 0, bb.bits));
  }

  lemma EciWidths()
    ensures Pow2(2) == 4 && Pow2(3) == 8 && Pow2(7) == 128 && Pow2(8) == 256
    ensures Pow2(14) == 16384 && Pow2(21) == 2097152
  {
    assert Pow2(4) == 16;
    assert Pow2(7) == 128;
    assert Pow2(10) == 1024;
    assert Pow2(14) == 16384;
    assert Pow2(17) == 131072;
  }

  method IsNumeric(text: seq<Char>) returns (r: bool)
    ensures r <==> AllDigits(text)
  {
    for n := 0 to |text|
      invariant AllDigits(text[..n])
    {
      if text[n] < 48 || text[n] > 57 {
        assert !IsDigit(text[n]);
        return false;
      }
    }
    return true;
  }

  method IsAlphanumeric(text: seq<Char>) returns (r: bool)
    ensures r <==> AllCharset(text)
  {
    hide CharsetIndex;
    for n := 0 to |text|
      invariant AllCharset(text[..n])
    {
      if CharsetIndex(text[n]) == 45 {
        assert !IsCharset(text[n]);
        return false;
      }
    }
    return true;
  }

  /** How the automatic choice represents a text. */
  function PayloadsOf(text: seq<Char>): seq<Payload> {
    if text == [] then []
    else if AllDigits(text) then [NumericText(text)]
    else if AllCharset(text) then [AlphanumericText(text)]
    else [ByteData(seq(|text|, i requires 0 <= i < |text| => text[i]))]
  }

  predicate AllEncodable(ps: seq<Payload>) { forall i :: 0 <= i < |ps| ==> Encodable(ps[i]) }

  function SegmentsOf(ps: seq<Payload>): (segs: seq<Segment>)
    requires AllEncodable(ps)
    ensures |segs| == |ps|
  {
    seq(|ps|, i requires 0 <= i < |ps| => SegmentOf(ps[i]))
  }

  // ----- the automatic choice is the densest

  lemma {:induction false} NumericLength(d: seq<Char>)
    requires AllDigits(d)
    ensures |NumericBits(d)| == 10 * (|d| / 3) + if |d| % 3 == 0 then 0 else 3 * (|d| % 3) + 1
  {
    hide Bits, DigitsValue;
    if |d| >= 3 { NumericLength(d[3..]); }
  }

  lemma {:induction false} AlphanumericLength(t: seq<Char>)
    requires AllCharset(t)
    ensures |AlphanumericBits(t)| == 11 * (|t| / 2) + 6 * (|t| % 2)
  {
    hide Bits, CharsetIndex;
    if |t| >= 2 { AlphanumericLength(t[2..]); }
  }

  lemma {:induction false} BytesLength(d: seq<uint8>)
    ensures |BytesBits(d)| == 8 * |d|
  {
    hide Bits;
    if d != [] { BytesLength(d[..|d| - 1]); }
  }

  /** The payload stands for this text. */
  ghost predicate Carries(p: Payload, text: seq<Char>) {
    match p
    case NumericText(d) => d == text
    case AlphanumericText(t) => t == text
    case ByteData(d) => |d| == |text| && forall i :: 0 <= i < |d| ==> d[i] == text[i]
    case EciDesignator(_) => false
  }

  /** The automatic choice carries the text, in at most as many bits as any single segment. */
  lemma ChoiceIsDensest(text: seq<Char>, p: Payload)
    requires text != [] && Carries(p, text) && Encodable(p)
    ensures var ps := PayloadsOf(text);
            && |ps| == 1 && Carries(ps[0], text) && Encodable(ps[0])
            && |SegmentOf(ps[0]).data| <= |SegmentOf(p).data|
  {
    hide NumericBits, AlphanumericBits, BytesBits, IsDigit, IsCharset;
    match p
    case NumericText(d) => NumericLength(d);
    case AlphanumericText(t) =>
      AlphanumericLength(t);
      if AllDigits(t) { NumericLength(t); }
    case ByteData(d) =>
      BytesLength(d);
      if AllDigits(text) { NumericLength(text); }
      else if AllCharset(text) { AlphanumericLength(text); }
      else { BytesLength(PayloadsOf(text)[0].bytes); }
  }

  /** Selects numeric, alphanumeric or byte mode, in this order of preference; None is the length
      exception of byte mode. */
  method MakeSegments(text: seq<Char>) returns (r: Option<seq<Segment>>)
    ensures r.Some? <==> AllEncodable(PayloadsOf(text))
    ensures r.Some? ==> r.value == SegmentsOf(PayloadsOf(text))
  {
    hide NumericBits, AlphanumericBits, BytesBits;
    if |text| == 0 { return Some([]); }
    var numeric := IsNumeric(text);
    if numeric {
      var seg := MakeNumeric(text);
      return Some([seg.value]);
    }
    var alphanumeric := IsAlphanumeric(text);
    if alphanumeric {
      var seg := MakeAlphanumeric(text);
      return Some([seg.value]);
    }
    var bytes: seq<uint8> := [];
    for n := 0 to |text|
      invariant |bytes| == n && forall i :: 0 <= i < n ==> bytes[i] == text[i]
    {
      bytes := bytes + [text[n]];
    }
    assert bytes == seq(|text|, i requires 0 <= i < |text| => text[i]);
    assert PayloadsOf(text) == [ByteData(bytes)];
    var seg := MakeBytes(bytes);
    if seg.None? { return None; }
    return Some([seg.value]);
  }
}
