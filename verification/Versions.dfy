/** Versions, error correction levels and their capacity tables. */
module Versions {
  import opened Interleaver

  const MIN_VERSION := 1
  const MAX_VERSION := 40

  datatype Ecc = Low | Medium | Quartile | High

  function Ordinal(e: Ecc): nat {
    match e
    case Low => 0
    case Medium => 1
    case Quartile => 2
    case High => 3
  }

  predicate IsVersion(v: int) { MIN_VERSION <= v <= MAX_VERSION }

  /** One number per error correction level. */
  datatype Levels = Levels(low: nat, medium: nat, quartile: nat, high: nat)

  function At(l: Levels, e: Ecc): nat {
    match e
    case Low => l.low
    case Medium => l.medium
    case Quartile => l.quartile
    case High => l.high
  }

  /** A column of the two tables: error correction codewords per block, and number of blocks. */
  datatype Entry = Entry(ecc: Levels, blocks: Levels)

  function TableEntry(version: nat): Entry
    requires IsVersion(version)
  {
    match version
    case 1 => Entry(Levels(7, 10, 13, 17), Levels(1, 1, 1, 1))
    case 2 => Entry(Levels(10, 16, 22, 28), Levels(1, 1, 1, 1))
    case 3 => Entry(Levels(15, 26, 18, 22), Levels(1, 1, 2, 2))
    case 4 => Entry(Levels(20, 18, 26, 16), Levels(1, 2, 2, 4))
    case 5 => Entry(Levels(26, 24, 18, 22), Levels(1, 2, 4, 4))
    case 6 => Entry(Levels(18, 16, 24, 28), Levels(2, 4, 4, 4))
    case 7 => Entry(Levels(20, 18, 18, 26), Levels(2, 4, 6, 5))
    case 8 => Entry(Levels(24, 22, 22, 26), Levels(2, 4, 6, 6))
    case 9 => Entry(Levels(30, 22, 20, 24), Levels(2, 5, 8, 8))
    case 10 => Entry(Levels(18, 26, 24, 28), Levels(4, 5, 8, 8))
    case 11 => Entry(Levels(20, 30, 28, 24), Levels(4, 5, 8, 11))
    case 12 => Entry(Levels(24, 22, 26, 28), Levels(4, 8, 10, 11))
    case 13 => Entry(Levels(26, 22, 24, 22), Levels(4, 9, 12, 16))
    case 14 => Entry(Levels(30, 24, 20, 24), Levels(4, 9, 16, 16))
    case 15 => Entry(Levels(22, 24, 30, 24), Levels(6, 10, 12, 18))
    case 16 => Entry(Levels(24, 28, 24, 30), Levels(6, 10, 17, 16))
    case 17 => Entry(Levels(28, 28, 28, 28), Levels(6, 11, 16, 19))
    case 18 => Entry(Levels(30, 26, 28, 28), Levels(6, 13, 18, 21))
    case 19 => Entry(Levels(28, 26, 26, 26), Levels(7, 14, 21, 25))
    case 20 => Entry(Levels(28, 26, 30, 28), Levels(8, 16, 20, 25))
    case 21 => Entry(Levels(28, 26, 28, 30), Levels(8, 17, 23, 25))
    case 22 => Entry(Levels(28, 28, 30, 24), Levels(9, 17, 23, 34))
    case 23 => Entry(Levels(30, 28, 30, 30), Levels(9, 18, 25, 30))
    case 24 => Entry(Levels(30, 28, 30, 30), Levels(10, 20, 27, 32))
    case 25 => Entry(Levels(26, 28, 30, 30), Levels(12, 21, 29, 35))
    case 26 => Entry(Levels(28, 28, 28, 30), Levels(12, 23, 34, 37))
    case 27 => Entry(Levels(30, 28, 30, 30), Levels(12, 25, 34, 40))
    case 28 => Entry(Levels(30, 28, 30, 30), Levels(13, 26, 35, 42))
    case 29 => Entry(Levels(30, 28, 30, 30), Levels(14, 28, 38, 45))
    case 30 => Entry(Levels(30, 28, 30, 30), Levels(15, 29, 40, 48))
    case 31 => Entry(Levels(30, 28, 30, 30), Levels(16, 31, 43, 51))
    case 32 => Entry(Levels(30, 28, 30, 30), Levels(17, 33, 45, 54))
    case 33 => Entry(Levels(30, 28, 30, 30), Levels(18, 35, 48, 57))
    case 34 => Entry(Levels(30, 28, 30, 30), Levels(19, 37, 51, 60))
    case 35 => Entry(Levels(30, 28, 30, 30), Levels(19, 38, 53, 63))
    case 36 => Entry(Levels(30, 28, 30, 30), Levels(20, 40, 56, 66))
    case 37 => Entry(Levels(30, 28, 30, 30), Levels(21, 43, 59, 70))
    case 38 => Entry(Levels(30, 28, 30, 30), Levels(22, 45, 62, 74))
    case 39 => Entry(Levels(30, 28, 30, 30), Levels(24, 47, 65, 77))
    case _ => Entry(Levels(30, 28, 30, 30), Levels(25, 49, 68, 81))
  }

  /** The data modules of a symbol: what the function patterns leave free. */
  function NumRawDataModules(version: nat): int {
    var modules := (16 * version + 128) * version + 64;
    if version < 2 then modules
    else
      var numAlign := version / 7 + 2;
      var rest := modules - ((25 * numAlign - 10) * numAlign - 55);
      if version >= 7 then rest - 36 else rest
  }

  function EccPerBlock(version: nat, e: Ecc): nat
    requires IsVersion(version)
  {
    At(TableEntry(version).ecc, e)
  }

  function NumBlocks(version: nat, e: Ecc): nat
    requires IsVersion(version)
  {
    At(TableEntry(version).blocks, e)
  }

  function NumDataCodewords(version: nat, e: Ecc): int
    requires IsVersion(version)
  {
    NumRawDataModules(version) / 8 - EccPerBlock(version, e) * NumBlocks(version, e)
  }

  /** What the encoder needs of `words` codewords in n blocks with `ecc` error correction codewords each. */
  predicate Fits(words: int, ecc: nat, n: nat) {
    1 <= ecc <= 30 && 1 <= n && ecc * n < words < 155 * n
  }

  predicate EntryFits(raw: int, t: Entry) {
    && 208 <= raw <= 29648
    && Fits(raw / 8, t.ecc.low, t.blocks.low) && Fits(raw / 8, t.ecc.medium, t.blocks.medium)
    && Fits(raw / 8, t.ecc.quartile, t.blocks.quartile) && Fits(raw / 8, t.ecc.high, t.blocks.high)
  }

  predicate VersionFits(version: nat)
    requires IsVersion(version)
  {
    EntryFits(NumRawDataModules(version), TableEntry(version))
  }

  lemma VersionsFrom1()
    ensures VersionFits(1) && VersionFits(2)
  {
  }

  lemma VersionsFrom3()
    ensures VersionFits(3) && VersionFits(4)
  {
  }

  lemma VersionsFrom5()
    ensures VersionFits(5) && VersionFits(6) && VersionFits(7) && VersionFits(8)
  {
  }

  lemma VersionsFrom9()
    ensures VersionFits(9) && VersionFits(10) && VersionFits(11) && VersionFits(12)
  {
  }

  lemma VersionsFrom13()
    ensures VersionFits(13) && VersionFits(14) && VersionFits(15) && VersionFits(16)
  {
  }

  lemma VersionsFrom17()
    ensures VersionFits(17) && VersionFits(18) && VersionFits(19) && VersionFits(20)
  {
  }

  lemma VersionsFrom21()
    ensures VersionFits(21) && VersionFits(22) && VersionFits(23) && VersionFits(24)
  {
  }

  lemma VersionsFrom25()
    ensures VersionFits(25) && VersionFits(26) && VersionFits(27) && VersionFits(28)
  {
  }

  lemma VersionsFrom29()
    ensures VersionFits(29) && VersionFits(30) && VersionFits(31) && VersionFits(32)
  {
  }

  lemma VersionsFrom33()
    ensures VersionFits(33) && VersionFits(34) && VersionFits(35) && VersionFits(36)
  {
  }

  lemma VersionsFrom37()
    ensures VersionFits(37) && VersionFits(38) && VersionFits(39) && VersionFits(40)
  {
  }

  /** Every entry of the tables describes a usable block structure. */
  lemma TablesFit(version: nat)
    requires IsVersion(version)
    ensures VersionFits(version)
  {
    hide VersionFits;
    VersionsFrom1();
    VersionsFrom3();
    VersionsFrom5();
    VersionsFrom9();
    VersionsFrom13();
    VersionsFrom17();
    VersionsFrom21();
    VersionsFrom25();
    VersionsFrom29();
    VersionsFrom33();
    VersionsFrom37();
  }

  /** A higher level takes more codewords for error correction. */
  predicate Grows(t: Entry) {
    && t.ecc.low * t.blocks.low < t.ecc.medium * t.blocks.medium
    && t.ecc.medium * t.blocks.medium < t.ecc.quartile * t.blocks.quartile < t.ecc.high * t.blocks.high
  }

  lemma TablesGrowFrom(version: nat, first: nat)
    requires IsVersion(version) && first <= version < first + 10
    requires first == 1 || first == 11 || first == 21 || first == 31
    ensures Grows(TableEntry(version))
  {
  }

  lemma TablesGrow(version: nat)
    requires IsVersion(version)
    ensures Grows(TableEntry(version))
  {
    hide Grows, TableEntry;
    var first := if version <= 10 then 1 else if version <= 20 then 11 else if version <= 30 then 21 else 31;
    TablesGrowFrom(version, first);
  }

  /** In each version the capacity falls as the level rises. */
  lemma CapacityFalls(version: nat, e: Ecc, f: Ecc)
    requires IsVersion(version) && Ordinal(e) < Ordinal(f)
    ensures NumDataCodewords(version, f) < NumDataCodewords(version, e)
  {
    hide TableEntry, NumRawDataModules;
    TablesGrow(version);
  }

  /** The block structure of a symbol. */
  function LayoutOf(version: nat, e: Ecc): (l: Layout)
    requires IsVersion(version)
    ensures l.Valid() && l.NumData() == NumDataCodewords(version, e)
    ensures 1 <= NumDataCodewords(version, e) && l.ShortLen() < 155
    ensures l.raw == NumRawDataModules(version) / 8
  {
    hide VersionFits, TableEntry, NumRawDataModules;
    var raw := NumRawDataModules(version);
    assert 208 <= raw && Fits(raw / 8, EccPerBlock(version, e), NumBlocks(version, e)) by { LevelFits(version, e); }
    BlockBounds(raw / 8, EccPerBlock(version, e), NumBlocks(version, e));
    Layout(NumBlocks(version, e), EccPerBlock(version, e), raw / 8)
  }

  lemma LevelFits(version: nat, e: Ecc)
    requires IsVersion(version)
    ensures 208 <= NumRawDataModules(version) <= 29648
    ensures Fits(NumRawDataModules(version) / 8, EccPerBlock(version, e), NumBlocks(version, e))
  {
    hide TableEntry, NumRawDataModules, Fits;
    TablesFit(version);
  }

  lemma BlockBounds(words: nat, ecc: nat, n: nat)
    requires Fits(words, ecc, n)
    ensures ecc <= words / n < 155
  {
    var q := words / n;
    assert words == q * n + words % n;
    assert q < ecc ==> (q + 1) * n <= ecc * n;
    assert q >= 155 ==> q * n >= 155 * n;
  }
}
