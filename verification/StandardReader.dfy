/** A reader of symbols that follows ISO/IEC 18004:2015: it knows modules and the rules of the
    standard, and nothing of the encoder. */
module StandardReader {
  import opened CodewordOrder
  import opened Conformance
  import opened Decoder
  import opened Gf256
  import opened MaskChoice
  import opened Segments
  import opened Standard
  import opened StandardTables
  import opened Versions
  import opened Wrappers

  /** The format, when both copies of its information agree. */
  function ReadFormat(g: Modules, n: nat): (f: Option<Format>)
    requires Sided(g, n) && n >= 21
    ensures f.Some? ==> f.value.mask < 8
  {
    var bits := Colours(g, n, FormatCells());
    if Colours(g, n, FormatCellsAgain(n)) == bits then FormatOf(Field(bits)) else None
  }

  /** Whether both copies of the version information, which is there from version 7 on, are those of
      the version that the size gives. */
  predicate VersionConfirmed(g: Modules, v: nat)
    requires Numbered(v) && Sided(g, Side(v))
  {
    v >= 7 ==>
      && Field(Colours(g, Side(v), VersionCells(Side(v)))) == VersionWord(v)
      && Field(Colours(g, Side(v), Mirrored(VersionCells(Side(v))))) == VersionWord(v)
  }

  /** The bits of the codewords, without the mask, in the order of placement. */
  ghost function ReadStream(g: Modules, v: nat, mask: nat): (bits: seq<bool>)
    requires Numbered(v) && Sided(g, Side(v)) && mask < 8
    ensures |bits| == 8 * TotalCodewords(v)
  {
    hide DataCells, Order, TotalCodewords, MaskInverts;
    var cells := DataCells(Order(Side(v), 0), v);
    EnoughCells(v);
    seq(8 * TotalCodewords(v), k requires 0 <= k < 8 * TotalCodewords(v) =>
      g[cells[k].i][cells[k].j] != MaskInverts(mask, cells[k].i, cells[k].j))
  }

  /** The places of the data codewords, block by block. */
  ghost function DataPlaces(v: nat, level: Level): (places: seq<int>)
    requires Numbered(v)
    ensures forall k :: 0 <= k < |places| ==> 0 <= 8 * places[k] <= 8 * TotalCodewords(v) - 8
  {
    hide TotalCodewords, DataCodewords, BlockCount, Places;
    var data, blocks := DataCodewords(v, level), BlockCount(v, level);
    PlacesFit(v, level, data, blocks);
    Places(data, blocks, blocks)
  }

  /** The bits of the data codewords. */
  ghost function ReadData(g: Modules, v: nat, f: Format): seq<bool>
    requires Numbered(v) && Sided(g, Side(v)) && f.mask < 8
  {
    Gather(ReadStream(g, v, f.mask), DataPlaces(v, f.level))
  }

  /** Whether all blocks of codewords are without errors. */
  ghost predicate Intact(g: Modules, v: nat, f: Format)
    requires Numbered(v) && Sided(g, Side(v)) && f.mask < 8
  {
    var check := CheckCodewords(v, f.level);
    check >= 0 && BlocksVanish(ReadStream(g, v, f.mask), DataCodewords(v, f.level), BlockCount(v, f.level), check)
  }

  /** What a reader finds in a symbol. */
  datatype Reading = Reading(version: nat, format: Format, payloads: seq<Payload>)

  /** Reads a symbol by the rules of the standard: the version from its size, the format, the
      codewords without the mask, the data codewords, and the segments. Nothing is read from modules
      that lack a fixed pattern, the version information or an error-free block. */
  ghost function ReadSymbol(g: Modules): Option<Reading> {
    hide ReadFormat, VersionConfirmed, ReadData, Decode, PatternsDrawn, Intact;
    if !(21 <= |g| <= 177 && |g| % 4 == 1 && Sided(g, |g|)) then None
    else
      var v := (|g| - 17) / 4;
      match ReadFormat(g, |g|)
      case None => None
      case Some(format) =>
        if !PatternsDrawn(g, v) || !VersionConfirmed(g, v) || !Intact(g, v, format) then None
        else
          match Decode(ReadData(g, v, format), v)
          case None => None
          case Some(ps) => Some(Reading(v, format, ps))
  }

  /** The data modules hold all codewords. */
  lemma EnoughCells(v: nat)
    requires Numbered(v)
    ensures var cells := DataCells(Order(Side(v), 0), v);
            && 8 * TotalCodewords(v) <= |cells|
            && forall k :: 0 <= k < |cells| ==> cells[k].i < Side(v) && cells[k].j < Side(v)
  {
    hide DataCells, Order, TotalCodewords, FreeModulesOf, NumRawDataModules;
    DataCellsAgree(v);
    TotalsAgree(v);
  }

  function EccOf(level: Level): (e: Ecc)
    ensures LevelOf(e) == level
  {
    match level
    case L => Low
    case M => Medium
    case Q => Quartile
    case H => High
  }

  /** The data codewords lie among the codewords. */
  lemma PlacesFit(v: nat, level: Level, data: nat, blocks: nat)
    requires Numbered(v) && data == DataCodewords(v, level) && blocks == BlockCount(v, level)
    ensures forall k :: 0 <= k < |Places(data, blocks, blocks)| ==>
      0 <= 8 * Places(data, blocks, blocks)[k] <= 8 * TotalCodewords(v) - 8
  {
    hide TotalCodewords, DataCodewords, BlockCount, Places, NumRawDataModules, NumDataCodewords, NumBlocks;
    var e := EccOf(level);
    TablesAgree(v, e);
    var l := LayoutOf(v, e);
    PlacesAgree(l, seq(l.raw, _ => Zero), l.numBlocks);
  }
}
