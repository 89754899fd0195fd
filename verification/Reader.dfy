/** The round trip of the whole encoder: what a reader finds in a finished symbol. */
module Reader {
  import opened Gf256
  import opened BitBuffers
  import opened Segments
  import opened Decoder
  import opened Encoder
  import opened Versions
  import opened Interleaver
  import opened Zigzag
  import opened FunctionPatterns
  import opened MaskChoice
  import opened QrCodes
  import opened Wrappers
  import opened Capacity
  import opened Standard
  import opened StandardTables
  import opened StandardReader
  import opened FixedPatterns
  import opened Penalty
  import opened PenaltyRules
  import opened Conformance
  import opened CodewordOrder
  import opened FormatWords
  import opened VersionWords

  // ----- format information

  lemma FormatPlace(g: Grid, n: nat, bits: seq<bool>, i: nat)
    requires Square(g, n) && n >= 21 && |bits| == 15 && i < 15
    ensures Inside(FirstPos(i), n) && Inside(SecondPos(n, i), n)
    ensures Get(WithFormat(g, n, bits), n, FirstPos(i)) == bits[14 - i]
        == Get(WithFormat(g, n, bits), n, SecondPos(n, i))
  {
    hide Square;
    var p, q := FirstPos(i), SecondPos(n, i);
    assert FirstCopy(p) == i && SecondCopy(n, q) == i && FirstCopy(q) == -1;
    WithFormatAt(g, n, bits, p); WithFormatAt(g, n, bits, q);
  }

  lemma WithFormatAt(g: Grid, n: nat, bits: seq<bool>, p: Pos)
    requires Square(g, n) && n >= 21 && |bits| == 15 && Inside(p, n)
    ensures Get(WithFormat(g, n, bits), n, p) == if IsFormat(n, p) then FormatColor(n, p, bits) else Get(g, n, p)
  {
    hide IsFormat, FormatColor;
  }

  // ----- codewords

  /** Bytes from bits. */
  function ToBytes(bits: seq<bool>): (b: seq<Byte>)
    requires |bits| % 8 == 0
    ensures |b| == |bits| / 8
  {
    seq(|bits| / 8, k requires 0 <= k < |bits| / 8 => FromBits(bits[8 * k..8 * k + 8]))
  }

  lemma ToBytesUnpack(bytes: seq<Byte>)
    ensures ToBytes(Unpack(bytes)) == bytes
  {
    hide Unpack, FromBits;
    forall k | 0 <= k < |bytes|
      ensures ToBytes(Unpack(bytes))[k] == bytes[k]
    {
      ByteUnpacked(bytes, k);
    }
  }

  lemma FromByteBits(b: Byte)
    ensures FromBits(ByteBits(b)) == b
  {
  }

  lemma ByteUnpacked(bytes: seq<Byte>, k: nat)
    requires k < |bytes|
    ensures FromBits(Unpack(bytes)[8 * k..8 * k + 8]) == bytes[k]
  {
    hide Unpack, ByteBits, FromBits;
    var part, bits := Unpack(bytes)[8 * k..8 * k + 8], ByteBits(bytes[k]);
    forall j | 0 <= j < 8
      ensures part[j] == bits[j]
    {
      var i := 8 * k + j;
      assert i / 8 == k && i % 8 == j;
      UnpackAt(bytes, i);
    }
    assert part == bits;
    FromByteBits(bytes[k]);
  }

  /** Unmasking the symbol and reading it in zigzag order returns the interleaved codewords. */
  lemma CodewordsReadBack(version: nat, e: Ecc, data: seq<Byte>, msk: nat)
    requires IsVersion(version) && |data| == NumDataCodewords(version, e) && msk < 8
    ensures var n, stream := SizeOf(version), Interleaved(LayoutOf(version, e), data);
            var plain := Masked(Symbol(version, e, data, msk), FunctionGrid(version), n, msk);
            && 8 * |stream| <= |FreeModulesOf(version)|
            && ReadBits(plain, n, FreeModulesOf(version), 8 * |stream|) == Unpack(stream)
  {
    hide Interleaved, Masked, FunctionGrid, WithFormat, Placed, FormatBits, PatternGrid, NumDataCodewords, Unpack,
         FormatMarked, Column6Marked, IsFormat, FormatColor;
    var n, free := SizeOf(version), FreeModulesOf(version);
    var stream := Interleaved(LayoutOf(version, e), data);
    var plain, bits := Unmasked(version, e, data), FormatBits(e, msk);
    FunctionGridMarks(version);
    FormatUnmasked(plain, FunctionGrid(version), n, msk, bits);
    PlacedReadBack(PatternGrid(version, FormatBits(e, 0)), n, free, Unpack(stream));
    FormatBesidesFree(version, plain, bits, 8 * |stream|);
  }

  /** Format bits do not touch the free modules. */
  lemma FormatBesidesFree(version: nat, g: Grid, bits: seq<bool>, k: nat)
    requires IsVersion(version) && Square(g, SizeOf(version)) && |bits| == 15 && k <= |FreeModulesOf(version)|
    ensures var n, free := SizeOf(version), FreeModulesOf(version);
            ReadBits(WithFormat(g, n, bits), n, free, k) == ReadBits(g, n, free, k)
  {
    hide FunctionGrid, FreeModulesOf, FormatColor, IsFormat;
    var n, free := SizeOf(version), FreeModulesOf(version);
    FunctionGridMarks(version);
    forall i | 0 <= i < k
      ensures Get(WithFormat(g, n, bits), n, free[i]) == Get(g, n, free[i])
    {
      if IsFormat(n, free[i]) {
        FreeModulesAreFree(version, free[i]);
        assert false;
      }
    }
  }

  // ----- version information

  lemma VersionModule(version: nat, e: Ecc, data: seq<Byte>, msk: nat, p: Pos)
    requires 7 <= version <= 40 && |data| == NumDataCodewords(version, e) && msk < 8
    requires Inside(p, SizeOf(version)) && VersionCell(SizeOf(version), p) >= 0
    ensures Get(Symbol(version, e, data, msk), SizeOf(version), p)
         == VersionBits(version)[17 - VersionCell(SizeOf(version), p)]
  {
    hide FormatBits, PatternGrid, Placed, Interleaved, NumDataCodewords, FormatColor, FunctionGrid, Unpack,
         VersionBits, FreeModulesOf, Inverts, VersionCell;
    var n, free, bits := SizeOf(version), FreeModulesOf(version), FormatBits(e, 0);
    var stream := Unpack(Interleaved(LayoutOf(version, e), data));
    FunctionGridAt(version, p);
    FreeModulesAreFree(version, p);
    PlacedAt(PatternGrid(version, bits), n, free, stream, p);
    PatternHasVersion(version, bits, p);
    VersionIsNotFormat(version, p);
  }

  lemma VersionIsNotFormat(version: nat, p: Pos)
    requires 7 <= version <= 40 && VersionCell(SizeOf(version), p) >= 0
    ensures !IsFormat(SizeOf(version), p)
  {
  }

  lemma PatternHasVersion(version: nat, bits: seq<bool>, p: Pos)
    requires 7 <= version <= 40 && |bits| == 15 && Inside(p, SizeOf(version)) && VersionCell(SizeOf(version), p) >= 0
    ensures Get(PatternGrid(version, bits), SizeOf(version), p)
         == VersionBits(version)[17 - VersionCell(SizeOf(version), p)]
  {
    hide Alignments, Stamp, Timing, FormatColor, VersionBits, IsFormat, VersionCell;
  }

  /** Both copies of the version information in a finished symbol are those of the standard. */
  lemma VersionReadBack(version: nat, e: Ecc, data: seq<Byte>, msk: nat)
    requires IsVersion(version) && |data| == NumDataCodewords(version, e) && msk < 8
    ensures VersionConfirmed(Symbol(version, e, data, msk), version)
  {
    hide Symbol, NumDataCodewords, VersionBits, VersionWord, VersionCells, Field, VersionCell;
    if version >= 7 {
      var s, n, cells := Symbol(version, e, data, msk), SizeOf(version), VersionCells(SizeOf(version));
      forall k | 0 <= k < 18
        ensures VersionBits(version)[k] == Colours(s, n, cells)[k] == Colours(s, n, Mirrored(cells))[k]
      {
        VersionCellsAre(n, k);
        VersionModule(version, e, data, msk, PosOf(cells[k]));
        VersionModule(version, e, data, msk, PosOf(Mirrored(cells)[k]));
      }
      assert Colours(s, n, cells) == VersionBits(version) == Colours(s, n, Mirrored(cells));
      VersionAgrees(version);
    }
  }

  lemma VersionCellsAre(n: nat, k: nat)
    requires n >= 45 && k < 18
    ensures var c := VersionCells(n)[k];
            VersionCell(n, Pos(c.j, c.i)) == 17 - k == VersionCell(n, Pos(c.i, c.j))
  {
  }

  // ----- the whole symbol

  /** Both copies of the format information in a finished symbol are those of the standard. */
  lemma FormatIsRead(g: Grid, n: nat, e: Ecc, msk: nat)
    requires Square(g, n) && n >= 21 && msk < 8
    ensures ReadFormat(WithFormat(g, n, FormatBits(e, msk)), n) == Some(Format(LevelOf(e), msk))
  {
    hide FormatBits, WithFormat, FormatOf, Field, FormatCells, FormatCellsAgain, FirstPos, SecondPos;
    var s, bits := WithFormat(g, n, FormatBits(e, msk)), FormatBits(e, msk);
    forall k | 0 <= k < 15
      ensures bits[k] == Colours(s, n, FormatCells())[k] == Colours(s, n, FormatCellsAgain(n))[k]
    {
      FormatCellsAre(n, k);
      FormatPlace(g, n, bits, 14 - k);
    }
    assert Colours(s, n, FormatCells()) == bits == Colours(s, n, FormatCellsAgain(n));
    FormatAgrees(e, msk);
  }

  lemma FormatCellsAre(n: nat, k: nat)
    requires n >= 21 && k < 15
    ensures PosOf(FormatCells()[k]) == FirstPos(14 - k) && PosOf(FormatCellsAgain(n)[k]) == SecondPos(n, 14 - k)
  {
  }

  /** The reader finds the interleaved codewords. */
  lemma StreamIsRead(version: nat, e: Ecc, data: seq<Byte>, msk: nat)
    requires IsVersion(version) && |data| == NumDataCodewords(version, e) && msk < 8
    ensures ReadStream(Symbol(version, e, data, msk), version, msk) == Unpack(Interleaved(LayoutOf(version, e), data))
  {
    hide Symbol, NumDataCodewords, NumRawDataModules, Interleaved, Unpack, FreeModulesOf, DataCells, Order, Masked,
         FunctionGrid, TotalCodewords, MaskInverts, Inverts, ReadStream;
    var s, n, free := Symbol(version, e, data, msk), SizeOf(version), FreeModulesOf(version);
    var stream := Interleaved(LayoutOf(version, e), data);
    CodewordsReadBack(version, e, data, msk);
    DataCellsAgree(version); TablesAgree(version, e); EnoughCells(version);
    forall k | 0 <= k < 8 * |stream|
      ensures ReadStream(s, version, msk)[k] == Unpack(stream)[k]
    {
      BitIsRead(version, s, msk, k);
    }
  }

  /** A bit without the mask of the encoder is the bit without the mask of the standard. */
  lemma BitIsRead(version: nat, g: Grid, msk: nat, k: nat)
    requires IsVersion(version) && Square(g, SizeOf(version)) && msk < 8 && k < 8 * TotalCodewords(version)
    ensures k < |FreeModulesOf(version)|
    ensures ReadStream(g, version, msk)[k]
         == Get(Masked(g, FunctionGrid(version), SizeOf(version), msk), SizeOf(version), FreeModulesOf(version)[k])
  {
    hide FreeModulesOf, DataCells, Order, FunctionGrid, TotalCodewords, NumRawDataModules, MaskInverts, Inverts;
    var free, cells := FreeModulesOf(version), DataCells(Order(Side(version), 0), version);
    DataCellsAgree(version); TotalsAgree(version); EnoughCells(version);
    MasksAgree(msk, cells[k].i, cells[k].j);
    if Get(FunctionGrid(version), SizeOf(version), free[k]) {
      FreeModulesAreFree(version, free[k]);
      assert false;
    }
  }

  /** The reader finds the data codewords. */
  lemma DataIsRead(version: nat, e: Ecc, data: seq<Byte>, msk: nat)
    requires IsVersion(version) && |data| == NumDataCodewords(version, e) && msk < 8
    ensures ReadData(Symbol(version, e, data, msk), version, Format(LevelOf(e), msk)) == Unpack(data)
  {
    hide Symbol, NumDataCodewords, NumRawDataModules, Interleaved, Unpack, ReadStream, Places, Gather, TotalCodewords,
         DataCodewords, BlockCount, NumBlocks, Deinterleave, JoinData, Blocks;
    var l := LayoutOf(version, e);
    var stream := Interleaved(l, data);
    var places := Places(DataCodewords(version, LevelOf(e)), l.numBlocks, l.numBlocks);
    TablesAgree(version, e);
    StreamIsRead(version, e, data, msk);
    PlacesAgree(l, stream, l.numBlocks);
    var bs := Deinterleave(l, stream);
    assert bs[..l.numBlocks] == bs;
    SplitIsComplete(l, data, l.numBlocks);
    l.DataExhausted();
    assert data[..|data|] == data;
    assert Selected(stream, places) == data;
    GatherAgrees(stream, places);
  }

  /** The reader finds no errors. */
  lemma BlocksAreIntact(version: nat, e: Ecc, data: seq<Byte>, msk: nat)
    requires IsVersion(version) && |data| == NumDataCodewords(version, e) && msk < 8
    ensures Intact(Symbol(version, e, data, msk), version, Format(LevelOf(e), msk))
  {
    hide Symbol, NumDataCodewords, NumRawDataModules, Interleaved, Unpack, ReadStream, BlocksVanish, TotalCodewords,
         DataCodewords, BlockCount, NumBlocks, EccPerBlock, CheckCodewords;
    TablesAgree(version, e);
    StreamIsRead(version, e, data, msk);
    InterleavedVanishes(LayoutOf(version, e), data);
  }

  /** Every finished symbol reads back to what it was made from: for every list of payloads, every
      version and level they fit, and every mask. */
  lemma SymbolRoundTrip(ps: seq<Payload>, version: nat, e: Ecc, data: seq<Byte>, msk: nat)
    requires AllEncodable(ps)
    requires IsVersion(version) && FitsSymbol(SegmentsOf(ps), version, e) && msk < 8
    requires |data| == NumDataCodewords(version, e) && Unpack(data) == DataStream(SegmentsOf(ps), version, e)
    ensures ReadSymbol(Symbol(version, e, data, msk)) == Some(Reading(version, Format(LevelOf(e), msk), ps))
  {
    hide Masked, FunctionGrid, WithFormat, Unmasked, FormatBits, NumDataCodewords, Unpack, Decode, DataStream,
         ReadFormat, SegmentsOf, Encodable, FitsSymbol, ReadData, VersionConfirmed, PatternsDrawn, Intact;
    var n := SizeOf(version);
    assert (n - 17) / 4 == version;
    FormatIsRead(Masked(Unmasked(version, e, data), FunctionGrid(version), n, msk), n, e, msk);
    PatternsAreDrawn(version, e, data, msk);
    VersionReadBack(version, e, data, msk);
    BlocksAreIntact(version, e, data, msk);
    DataIsRead(version, e, data, msk);
    DataRoundTrip(ps, version, e);
  }

  /** The automatic mask has no more points by the standard than any other, and fewer than those before it. */
  lemma BestMaskHasFewestPoints(version: nat, e: Ecc, data: seq<Byte>, msk: nat, other: nat, a: int, b: int)
    requires IsVersion(version) && |data| == NumDataCodewords(version, e) && msk < 8 && other < 8
    requires IsBestMask(version, e, data, msk)
    requires HasPoints(Symbol(version, e, data, msk), SizeOf(version), a)
    requires HasPoints(Symbol(version, e, data, other), SizeOf(version), b)
    ensures a <= b && (other < msk ==> a < b)
  {
    hide Symbol, NumDataCodewords, HasPoints, Score;
    ScoreIsStandard(Symbol(version, e, data, msk), SizeOf(version), a);
    ScoreIsStandard(Symbol(version, e, data, other), SizeOf(version), b);
  }

  /** The outcome of encoding a list of segments. */
  datatype Outcome = Made(code: QrCode) | InvalidArgument | TooLong

  /** The modules are the symbol of these codewords, which carry the segments; the mask is the
      requested one, or the first one of least penalty when -1 is requested. */
  ghost predicate Drawn(g: Grid, segs: seq<Segment>, version: nat, e: Ecc, data: seq<Byte>, msk: int, requested: int) {
    && IsVersion(version) && FitsSymbol(segs, version, e) && 0 <= msk < 8
    && |data| == NumDataCodewords(version, e) && Unpack(data) == DataStream(segs, version, e)
    && g == Symbol(version, e, data, msk)
    && (if requested == -1 then IsBestMask(version, e, data, msk) else msk == requested)
  }

  /** A reader that sees only the modules finds the version, the level and the mask of the symbol, and
      these payloads. */
  ghost predicate IsRead(q: QrCode, ps: seq<Payload>)
    reads q
  {
    q.mask >= 0 && ReadSymbol(q.modules) == Some(Reading(q.version, Format(LevelOf(q.ecc), q.mask), ps))
  }

  /** Encodes segments into a symbol of the smallest version that fits, at the highest level that
      fits this version. When the segments come from the factories, reading the symbol returns what
      the factories were given. */
  method EncodeSegments(segs: seq<Segment>, ecc: Ecc, minVersion: int, maxVersion: int, mask: int, boost: bool)
    returns (r: Outcome)
    ensures r.InvalidArgument? <==> !(1 <= minVersion <= maxVersion <= 40 && -1 <= mask <= 7)
    ensures r.TooLong? ==> forall v :: minVersion <= v <= maxVersion ==> !FitsSymbol(segs, v, ecc)
    ensures r.Made? ==>
      var q := r.code;
      && fresh(q) && q.Valid() && minVersion <= q.version <= maxVersion
      && FitsSymbol(segs, q.version, ecc) && (forall v :: minVersion <= v < q.version ==> !FitsSymbol(segs, v, ecc))
      && FitsSymbol(segs, q.version, q.ecc) && Ordinal(ecc) <= Ordinal(q.ecc)
      && (if boost then forall h :: Ordinal(h) > Ordinal(q.ecc) ==> !FitsSymbol(segs, q.version, h) else q.ecc == ecc)
      && exists data :: Drawn(q.modules, segs, q.version, q.ecc, data, q.mask, mask)
    ensures r.Made? ==>
      forall ps :: AllEncodable(ps) && SegmentsOf(ps) == segs ==> IsRead(r.code, ps)
  {
    hide FitsSymbol, DataStream, Unpack, NumDataCodewords, ReadSymbol, Symbol, IsBestMask, Encodable, SegmentsOf;
    var encoded := EncodeData(segs, ecc, minVersion, maxVersion, mask, boost);
    match encoded
    case InvalidValue => return InvalidArgument;
    case DataTooLong => return TooLong;
    case Encoded(version, e, codewords) =>
      var q := QrCode.Create(version, e, codewords, mask);
      assert Drawn(q.value.modules, segs, version, e, codewords, q.value.mask, mask);
      forall ps | AllEncodable(ps) && SegmentsOf(ps) == segs
        ensures IsRead(q.value, ps)
      {
        SymbolRoundTrip(ps, version, e, codewords, q.value.mask);
      }
      return Made(q.value);
  }

  /** Encodes a text: reading the symbol returns the text. */
  method EncodeText(text: seq<Char>, ecc: Ecc) returns (r: Outcome)
    ensures !r.InvalidArgument?
    ensures r.TooLong? && AllEncodable(PayloadsOf(text)) ==>
      forall v :: 1 <= v <= 40 ==> !FitsSymbol(SegmentsOf(PayloadsOf(text)), v, ecc)
    ensures r.Made? ==>
      var q := r.code;
      && fresh(q) && q.Valid() && Ordinal(ecc) <= Ordinal(q.ecc)
      && ReadSymbol(q.modules).Some?
      && var ps := ReadSymbol(q.modules).value.payloads;
         IsRead(q, ps) && |TextOf(ps)| == |text| && forall i :: 0 <= i < |text| ==> TextOf(ps)[i] == text[i]
  {
    hide ReadSymbol, FitsSymbol, Drawn, SegmentsOf;
    var segs := MakeSegments(text);
    if segs.None? { return TooLong; }
    r := EncodeSegments(segs.value, ecc, MIN_VERSION, MAX_VERSION, -1, true);
    if r.Made? {
      assert AllEncodable(PayloadsOf(text));
      assert IsRead(r.code, PayloadsOf(text));
      PayloadsCarryText(text);
    }
  }

  /** Encodes bytes: reading the symbol returns one segment with these bytes. */
  method EncodeBinary(data: seq<uint8>, ecc: Ecc) returns (r: Outcome)
    ensures !r.InvalidArgument?
    ensures r.TooLong? && Encodable(ByteData(data)) ==>
      forall v :: 1 <= v <= 40 ==> !FitsSymbol([SegmentOf(ByteData(data))], v, ecc)
    ensures r.Made? ==> fresh(r.code) && r.code.Valid()
    ensures r.Made? ==> IsRead(r.code, [ByteData(data)])
  {
    hide ReadSymbol, FitsSymbol, Drawn, SegmentOf, Encodable;
    var seg := MakeBytes(data);
    if seg.None? { return TooLong; }
    r := EncodeSegments([seg.value], ecc, MIN_VERSION, MAX_VERSION, -1, true);
    var ps := [ByteData(data)];
    assert AllEncodable(ps) && SegmentsOf(ps) == [seg.value];
  }
}
