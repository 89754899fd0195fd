/** Building the data codewords of a symbol: choosing a version and a level, concatenating the
    segments, terminating, padding and packing. */
module Encoder {
  import opened BitBuffers
  import opened Segments
  import opened Decoder
  import opened Standard
  import opened Versions
  import opened Wrappers
  import opened Gf256
  import opened Integers

  // ----- the length of the stream

  /** The bits of one segment at the given version: mode, character count, data. */
  function SegmentBits(seg: Segment, version: nat): (b: seq<bool>)
    requires IsVersion(version)
    ensures |b| == 4 + NumCharCountBits(seg.mode, version) + |seg.data|
  {
    Bits(ModeBits(seg.mode), 4) + Bits(seg.numChars, NumCharCountBits(seg.mode, version)) + seg.data
  }

  function StreamBits(segs: seq<Segment>, version: nat): seq<bool>
    requires IsVersion(version)
  {
    if segs == [] then [] else StreamBits(segs[..|segs| - 1], version) + SegmentBits(segs[|segs| - 1], version)
  }

  /** Whether every character count fits its field. */
  predicate CountsFit(segs: seq<Segment>, version: nat)
    requires IsVersion(version)
  {
    forall i :: 0 <= i < |segs| ==> segs[i].numChars < Pow2(NumCharCountBits(segs[i].mode, version))
  }

  lemma {:induction false} StreamBitsGrow(segs: seq<Segment>, version: nat, n: nat)
    requires IsVersion(version) && n <= |segs|
    ensures |StreamBits(segs[..n], version)| <= |StreamBits(segs, version)|
  {
    hide SegmentBits;
    if n < |segs| {
      var m := |segs| - 1;
      StreamBitsGrow(segs[..m], version, n);
      assert segs[..m][..n] == segs[..n];
    } else {
      assert segs[..n] == segs;
    }
  }

  lemma StreamBitsSnoc(segs: seq<Segment>, version: nat, n: nat)
    requires IsVersion(version)
    ensures StreamBits([], version) == []
    ensures n < |segs| ==>
      StreamBits(segs[..n + 1], version) == StreamBits(segs[..n], version) + SegmentBits(segs[n], version)
  {
    if n < |segs| { assert segs[..n + 1][..n] == segs[..n]; }
  }

  /** The number of bits of the segments, or -1 when a count does not fit its field or the sum
      exceeds an `int`. */
  method GetTotalBits(segs: seq<Segment>, version: nat) returns (r: int)
    requires IsVersion(version)
    ensures r == -1 || r == |StreamBits(segs, version)|
    ensures r == -1 <==> !CountsFit(segs, version) || |StreamBits(segs, version)| > INT_MAX
  {
    hide Bits, Pow2, StreamBits, SegmentBits, NumCharCountBits;
    r := 0;
    StreamBitsSnoc(segs, version, 0);
    for n := 0 to |segs|
      invariant 0 <= r == |StreamBits(segs[..n], version)| <= INT_MAX
      invariant CountsFit(segs[..n], version)
    {
      var seg := segs[n];
      StreamBitsSnoc(segs, version, n);
      StreamBitsGrow(segs, version, n + 1);
      var ccbits := NumCharCountBits(seg.mode, version);
      if seg.numChars >= Pow2(ccbits) { return -1; }
      if 4 + ccbits > INT_MAX - r { return -1; }
      r := r + 4 + ccbits;
      if |seg.data| > INT_MAX - r { return -1; }
      r := r + |seg.data|;
    }
    assert segs[..|segs|] == segs;
  }

  // ----- choosing the version and the level

  /** Whether the segments fit a symbol of the given version and level. */
  predicate FitsSymbol(segs: seq<Segment>, version: nat, e: Ecc)
    requires IsVersion(version)
  {
    CountsFit(segs, version) && |StreamBits(segs, version)| <= 8 * NumDataCodewords(version, e)
  }

  /** No capacity is beyond the range of an int. */
  lemma CapacityBound(version: nat, e: Ecc)
    requires IsVersion(version)
    ensures 0 <= 8 * NumDataCodewords(version, e) <= INT_MAX
  {
    hide TableEntry, NumRawDataModules;
    LevelFits(version, e);
  }

  /** The smallest version in the range that fits, or None when none does. */
  method ChooseVersion(segs: seq<Segment>, e: Ecc, minVersion: nat, maxVersion: nat) returns (r: Option<nat>)
    requires MIN_VERSION <= minVersion <= maxVersion <= MAX_VERSION
    ensures r.None? ==> forall v :: minVersion <= v <= maxVersion ==> !FitsSymbol(segs, v, e)
    ensures r.Some? ==> minVersion <= r.value <= maxVersion && FitsSymbol(segs, r.value, e)
    ensures r.Some? ==> forall v :: minVersion <= v < r.value ==> !FitsSymbol(segs, v, e)
  {
    hide StreamBits, NumDataCodewords, CountsFit;
    var version := minVersion;
    while true
      invariant minVersion <= version <= maxVersion
      invariant forall v :: minVersion <= v < version ==> !FitsSymbol(segs, v, e)
      decreases maxVersion - version
    {
      var capacity := NumDataCodewords(version, e) * 8;
      CapacityBound(version, e);
      var used := GetTotalBits(segs, version);
      if used != -1 && used <= capacity { return Some(version); }
      if version >= maxVersion { return None; }
      version := version + 1;
    }
  }

  /** Raises the level while the data still fits the version: the highest level that fits, and
      never one below the requested level. */
  method BoostLevel(version: nat, usedBits: nat, requested: Ecc, boost: bool) returns (e: Ecc)
    requires IsVersion(version) && usedBits <= 8 * NumDataCodewords(version, requested)
    ensures usedBits <= 8 * NumDataCodewords(version, e)
    ensures Ordinal(requested) <= Ordinal(e)
    ensures if boost then forall h :: Ordinal(h) > Ordinal(e) ==> usedBits > 8 * NumDataCodewords(version, h)
            else e == requested
  {
    hide NumDataCodewords;
    e := requested;
    var levels := [Medium, Quartile, High];
    for i := 0 to 3
      invariant usedBits <= 8 * NumDataCodewords(version, e)
      invariant boost || e == requested
      invariant Ordinal(e) <= i || e == requested
      invariant i >= Ordinal(requested) ==> Ordinal(requested) <= Ordinal(e)
      invariant boost ==> forall h :: Ordinal(e) < Ordinal(h) <= i ==> usedBits > 8 * NumDataCodewords(version, h)
    {
      if boost && usedBits <= NumDataCodewords(version, levels[i]) * 8 {
        e := levels[i];
      }
    }
  }

  // ----- terminator and padding

  /** n pad bytes, alternating 0xEC and 0x11. */
  function PadBits(n: nat): (b: seq<bool>)
    ensures |b| == 8 * n
  {
    if n == 0 then [] else PadBits(n - 1) + Bits(if n % 2 == 1 then 0xEC else 0x11, 8)
  }

  /** What follows the segments: up to four zero bits, zeros up to a byte, and pad bytes. */
  function Filler(used: nat, capacity: nat): (b: seq<bool>)
    requires used <= capacity && capacity % 8 == 0
    ensures |b| == capacity - used
  {
    var t := Min(4, capacity - used);
    var z := (8 - (used + t) % 8) % 8;
    ByteBoundary(used + t, capacity);
    Bits(0, t) + Bits(0, z) + PadBits((capacity - used - t - z) / 8)
  }

  /** Concatenates the segments. */
  method AppendSegments(segs: seq<Segment>, version: nat) returns (bb: BitBuffer)
    requires IsVersion(version) && CountsFit(segs, version)
    ensures fresh(bb) && bb.bits == StreamBits(segs, version)
    ensures forall ps :: AllEncodable(ps) && SegmentsOf(ps) == segs ==> Decode(bb.bits, version) == Some(ps)
  {
    hide Bits, Pow2, StreamBits, NumCharCountBits, Decode, SegmentsOf, Encodable;
    bb := new BitBuffer();
    StreamBitsSnoc(segs, version, 0);
    for n := 0 to |segs|
      invariant bb.bits == StreamBits(segs[..n], version)
    {
      ghost var before := bb.bits;
      var seg := segs[n];
      assert ModeBits(seg.mode) < Pow2(4) by { FieldWidths(); }
      var ok := bb.AppendBits(ModeBits(seg.mode), 4);
      assert ok;
      ok := bb.AppendBits(seg.numChars, NumCharCountBits(seg.mode, version));
      assert ok;
      bb.AppendAll(seg.data);
      assert bb.bits == before + SegmentBits(seg, version);
      StreamBitsSnoc(segs, version, n);
    }
    assert segs[..|segs|] == segs;
    forall ps | AllEncodable(ps) && SegmentsOf(ps) == segs
      ensures Decode(bb.bits, version) == Some(ps)
    {
      StreamRoundTrip(ps, version, []);
      assert bb.bits + [] == bb.bits;
    }
  }

  /** Alternating pad bytes until the capacity is reached. */
  method Pad(bb: BitBuffer, capacity: nat, ghost pads: nat)
    requires |bb.bits| + 8 * pads == capacity
    modifies bb
    ensures bb.bits == old(bb.bits) + PadBits(pads)
  {
    hide Bits, Pow2;
    PadWidth();
    ghost var start := bb.bits;
    var padByte := 0xEC;
    ghost var n := 0;
    while |bb.bits| < capacity
      invariant n <= pads && |bb.bits| == |start| + 8 * n
      invariant padByte == if n % 2 == 0 then 0xEC else 0x11
      invariant bb.bits == start + PadBits(n)
      decreases capacity - |bb.bits|
    {
      var ok := bb.AppendBits(padByte, 8);
      assert ok;
      padByte := if padByte == 0xEC then 0x11 else 0xEC;  // padByte ^= 0xEC ^ 0x11
      n := n + 1;
      assert PadBits(n) == PadBits(n - 1) + Bits(if n % 2 == 1 then 0xEC else 0x11, 8);
    }
  }

  /** Zeros up to a byte boundary never pass a capacity of whole bytes. */
  lemma ByteBoundary(used: nat, capacity: nat)
    requires used <= capacity && capacity % 8 == 0
    ensures var z := (8 - used % 8) % 8;
            (used + z) % 8 == 0 && used + z <= capacity && used + z + 8 * ((capacity - used - z) / 8) == capacity
  {
    var z, q := (8 - used % 8) % 8, used / 8;
    assert used == 8 * q + used % 8;
    var k := if used % 8 == 0 then q else q + 1;
    assert used + z == 8 * k;
    var c := capacity / 8;
    assert capacity == 8 * c && k <= c;
    assert capacity - used - z == 8 * (c - k);
  }

  /** Terminates the stream and fills it up to the capacity; no range check of the buffer fails. */
  method Terminate(bb: BitBuffer, capacity: nat)
    requires |bb.bits| <= capacity && capacity % 8 == 0
    modifies bb
    ensures bb.bits == old(bb.bits) + Filler(|old(bb.bits)|, capacity)
  {
    hide Bits, Pow2, PadBits;
    ghost var start := bb.bits;
    var t := Min(4, capacity - |bb.bits|);
    var ok := bb.AppendBits(0, t);
    assert ok;
    ByteBoundary(|bb.bits|, capacity);
    var z := (8 - |bb.bits| % 8) % 8;
    ok := bb.AppendBits(0, z);
    assert ok;
    assert |bb.bits| % 8 == 0;
    Pad(bb, capacity, (capacity - |start| - t - z) / 8);
  }

  lemma PadWidth()
    ensures Pow2(8) == 256
  {
    FieldWidths();
  }

  /** The whole bit stream of a symbol. */
  function DataStream(segs: seq<Segment>, version: nat, e: Ecc): (b: seq<bool>)
    requires IsVersion(version) && |StreamBits(segs, version)| <= 8 * NumDataCodewords(version, e)
    ensures |b| == 8 * NumDataCodewords(version, e)
  {
    var bits := StreamBits(segs, version);
    bits + Filler(|bits|, 8 * NumDataCodewords(version, e))
  }

  // ----- the padding of the standard

  /** The codeword in which padding starts, after at most four bits of terminator. */
  function PaddingStart(used: nat, capacity: nat): nat { (Min(used + 4, capacity) + 7) / 8 }

  lemma PadBytes()
    ensures Bits(0xEC, 8) == PadCodeword(0) && Bits(0x11, 8) == PadCodeword(1)
  {
  }

  lemma PadCodewordParity(k: nat)
    ensures PadCodeword(k) == PadCodeword(k % 2)
  {
  }

  lemma {:induction false} PadBitsAre(n: nat, k: nat)
    requires k < n
    ensures PadBits(n)[8 * k..8 * k + 8] == PadCodeword(k)
  {
    hide Bits, PadCodeword;
    if k < n - 1 {
      PadBitsAre(n - 1, k);
      assert PadBits(n)[8 * k..8 * k + 8] == PadBits(n - 1)[8 * k..8 * k + 8];
    } else {
      PadBytes(); PadCodewordParity(k);
    }
  }

  lemma {:induction false} ZeroField(n: nat, i: nat)
    requires i < n
    ensures !Bits(0, n)[i]
  {
    if i < n - 1 { ZeroField(n - 1, i); }
  }

  lemma PaddingStarts(used: nat, capacity: nat)
    requires used <= capacity && capacity % 8 == 0
    ensures used <= 8 * PaddingStart(used, capacity) <= capacity
    ensures var t := Min(4, capacity - used); 8 * PaddingStart(used, capacity) == used + t + (8 - (used + t) % 8) % 8
  {
    var end := Min(used + 4, capacity);
    ByteBoundary(end, capacity);
    RoundedUp(end);
  }

  lemma RoundedUp(n: nat)
    ensures 8 * ((n + 7) / 8) == n + (8 - n % 8) % 8
  {
    var q, r := n / 8, n % 8;
    assert n == 8 * q + r;
    assert (n + 7) / 8 == if r == 0 then q else q + 1;
  }

  /** What follows the segments: zeros up to a codeword, as terminator and beyond, ... */
  lemma FillerZeros(used: nat, capacity: nat, i: nat)
    requires used <= capacity && capacity % 8 == 0 && i < 8 * PaddingStart(used, capacity) - used
    ensures i < capacity - used && !Filler(used, capacity)[i]
  {
    hide Bits, PadBits, PaddingStart;
    PaddingStarts(used, capacity);
    var t := Min(4, capacity - used);
    if i < t { ZeroField(t, i); } else { ZeroField((8 - (used + t) % 8) % 8, i - t); }
  }

  /** ... and then the two pad codewords of the standard in turn. */
  lemma FillerPads(used: nat, capacity: nat, k: nat)
    requires used <= capacity && capacity % 8 == 0 && PaddingStart(used, capacity) <= k < capacity / 8
    ensures used <= 8 * k
    ensures Filler(used, capacity)[8 * k - used..8 * k + 8 - used] == PadCodeword(k - PaddingStart(used, capacity))
  {
    hide Bits, PadBits, PaddingStart, PadCodeword;
    PaddingStarts(used, capacity);
    var start, pads := 8 * PaddingStart(used, capacity) - used, capacity / 8 - PaddingStart(used, capacity);
    assert Filler(used, capacity)[start..] == PadBits(pads);
    var m := k - PaddingStart(used, capacity);
    PadBitsAre(pads, m);
    assert Filler(used, capacity)[start..][8 * m..8 * m + 8] == Filler(used, capacity)[8 * k - used..8 * k + 8 - used];
  }

  /** The outcome of encoding: the chosen version and level with the data codewords, or one of
      the two exceptions. */
  datatype Encoded =
    | Encoded(version: nat, ecc: Ecc, codewords: seq<Byte>)
    | InvalidValue
    | DataTooLong

  /** Chooses version and level and builds the data codewords. */
  method EncodeData(segs: seq<Segment>, requested: Ecc, minVersion: int, maxVersion: int, mask: int, boost: bool)
    returns (r: Encoded)
    ensures r.InvalidValue? <==> !(MIN_VERSION <= minVersion <= maxVersion <= MAX_VERSION && -1 <= mask <= 7)
    ensures r.DataTooLong? ==> forall v :: minVersion <= v <= maxVersion ==> !FitsSymbol(segs, v, requested)
    ensures r.Encoded? ==>
      && minVersion <= r.version <= maxVersion && FitsSymbol(segs, r.version, requested)
      && (forall v :: minVersion <= v < r.version ==> !FitsSymbol(segs, v, requested))
      && FitsSymbol(segs, r.version, r.ecc) && Ordinal(requested) <= Ordinal(r.ecc)
      && (if boost then forall h :: Ordinal(h) > Ordinal(r.ecc) ==> !FitsSymbol(segs, r.version, h)
          else r.ecc == requested)
    ensures r.Encoded? ==>
      |r.codewords| == NumDataCodewords(r.version, r.ecc) && Unpack(r.codewords) == DataStream(segs, r.version, r.ecc)
  {
    hide StreamBits, NumDataCodewords, CountsFit, Filler;
    if !(MIN_VERSION <= minVersion <= maxVersion <= MAX_VERSION) || mask < -1 || mask > 7 { return InvalidValue; }
    var chosen := ChooseVersion(segs, requested, minVersion, maxVersion);
    if chosen.None? { return DataTooLong; }
    var version := chosen.value;
    CapacityBound(version, requested);
    var used := GetTotalBits(segs, version);
    assert used != -1;
    var e := BoostLevel(version, used, requested, boost);
    var bb := AppendSegments(segs, version);
    assert |bb.bits| == used;
    var capacity := NumDataCodewords(version, e) * 8;
    assert |bb.bits| <= capacity;
    Terminate(bb, capacity);
    var codewords := Pack(bb.bits);
    return Encoded(version, e, codewords);
  }

  // ----- reading the stream back

  lemma {:induction false} StreamBitsCons(segs: seq<Segment>, version: nat)
    requires IsVersion(version) && segs != []
    ensures StreamBits(segs, version) == SegmentBits(segs[0], version) + StreamBits(segs[1..], version)
  {
    hide SegmentBits;
    var n := |segs| - 1;
    if n > 0 {
      StreamBitsCons(segs[..n], version);
      assert segs[..n][1..] == segs[1..][..n - 1];
    } else {
      assert segs[..0] == [] && segs[1..] == [];
    }
  }

  lemma SegmentRoundTrip(p: Payload, version: nat, rest: seq<bool>)
    requires IsVersion(version) && Encodable(p)
    requires SegmentOf(p).numChars < Pow2(NumCharCountBits(SegmentOf(p).mode, version))
    ensures ReadSegment(SegmentBits(SegmentOf(p), version) + rest, version) == Some(Read(p, rest))
    ensures Field((SegmentBits(SegmentOf(p), version) + rest)[..4]) == ModeBits(SegmentOf(p).mode)
  {
    hide Bits, Field, Pow2, NumericBits, AlphanumericBits, BytesBits, EciBits, ReadNumeric, ReadAlphanumeric,
         ReadBytes, ReadEci, NumCharCountBits, CountWidth, AllDigits, AllCharset;
    var seg := SegmentOf(p);
    var width := NumCharCountBits(seg.mode, version);
    var bits := SegmentBits(seg, version) + rest;
    var body := seg.data + rest;
    assert ModeBits(seg.mode) < Pow2(4) by { FieldWidths(); }
    var counted := Bits(seg.numChars, width) + body;
    assert bits == Bits(ModeBits(seg.mode), 4) + counted;
    ReadField(ModeBits(seg.mode), 4, counted);
    ReadField(seg.numChars, width, body);
    assert bits[4..] == counted;
    assert bits[4..4 + width] == counted[..width] && bits[4 + width..] == counted[width..];
    match p
    case NumericText(d) => CountWidthsAgree(Numeric, version); NumericRoundTrip(d, rest);
    case AlphanumericText(t) => CountWidthsAgree(Alphanumeric, version); AlphanumericRoundTrip(t, rest);
    case ByteData(d) => CountWidthsAgree(Bytes, version); BytesRoundTrip(d, rest);
    case EciDesignator(v) =>
      EciRoundTrip(v, rest);
      assert width == 0 by { EciWidth(version); }
      assert counted == body;
  }

  lemma EciWidth(version: nat)
    requires IsVersion(version)
    ensures NumCharCountBits(Eci, version) == 0
  {
  }

  /** What makes the reader stop: fewer than four bits, or a terminator. */
  ghost predicate Stops(bits: seq<bool>) { |bits| < 4 || Field(bits[..4]) == 0 }

  lemma {:induction false} StreamRoundTrip(ps: seq<Payload>, version: nat, tail: seq<bool>)
    requires IsVersion(version) && AllEncodable(ps)
    requires CountsFit(SegmentsOf(ps), version) && Stops(tail)
    ensures Decode(StreamBits(SegmentsOf(ps), version) + tail, version) == Some(ps)
  {
    hide Field, Pow2, SegmentBits, SegmentOf, ReadSegment, StreamBits;
    var segs := SegmentsOf(ps);
    if ps == [] {
      StreamBitsSnoc(segs, version, 0);
      assert StreamBits(segs, version) + tail == tail;
    } else {
      StreamBitsCons(segs, version);
      assert segs[1..] == SegmentsOf(ps[1..]);
      var rest := StreamBits(segs[1..], version) + tail;
      assert StreamBits(segs, version) + tail == SegmentBits(segs[0], version) + rest;
      SegmentRoundTrip(ps[0], version, rest);
      assert CountsFit(segs[1..], version);
      StreamRoundTrip(ps[1..], version, tail);
      assert ps == [ps[0]] + ps[1..];
    }
  }

  lemma FillerStops(used: nat, capacity: nat)
    requires used <= capacity && capacity % 8 == 0
    ensures Stops(Filler(used, capacity))
  {
    hide Field, Bits, Pow2;
    if capacity - used >= 4 {
      FieldWidths();
      FieldOfBits(0, 4);
      assert Filler(used, capacity)[..4] == Bits(0, 4);
    }
  }

  /** Reading the data codewords of a symbol returns exactly the payloads it was built from. */
  lemma DataRoundTrip(ps: seq<Payload>, version: nat, e: Ecc)
    requires AllEncodable(ps)
    requires IsVersion(version) && FitsSymbol(SegmentsOf(ps), version, e)
    ensures Decode(DataStream(SegmentsOf(ps), version, e), version) == Some(ps)
  {
    hide Decode, StreamBits, NumDataCodewords, Filler, SegmentOf, SegmentsOf, CountsFit, Stops, Field;
    var bits := StreamBits(SegmentsOf(ps), version);
    FillerStops(|bits|, 8 * NumDataCodewords(version, e));
    StreamRoundTrip(ps, version, Filler(|bits|, 8 * NumDataCodewords(version, e)));
  }

  /** The text that a list of payloads carries. */
  function TextOf(ps: seq<Payload>): seq<nat> {
    if ps == [] then []
    else
      TextOf(ps[..|ps| - 1]) +
      match ps[|ps| - 1]
      case NumericText(d) => seq(|d|, i requires 0 <= i < |d| => d[i])
      case AlphanumericText(t) => seq(|t|, i requires 0 <= i < |t| => t[i])
      case ByteData(d) => seq(|d|, i requires 0 <= i < |d| => d[i])
      case EciDesignator(_) => []
  }

  /** The automatic choice of modes keeps the text. */
  lemma PayloadsCarryText(text: seq<Char>)
    ensures var got := TextOf(PayloadsOf(text)); |got| == |text| && forall i :: 0 <= i < |text| ==> got[i] == text[i]
  {
    hide AllDigits, AllCharset;
    if text != [] { assert PayloadsOf(text)[..0] == []; }
  }
}
