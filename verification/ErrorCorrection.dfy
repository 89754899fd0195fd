/** What the error correction bytes of a symbol are for. */
module ErrorCorrection {
  import opened Gf256
  import opened Polynomial
  import opened ReedSolomon
  import opened ReedSolomonDistance
  import opened Interleaver
  import opened Versions
  import opened Zigzag
  import opened FunctionPatterns
  import opened MaskChoice
  import opened BitBuffers
  import opened Reader

  function Word(b: Block): seq<Byte> { b.data + b.ecc }

  /** Every block of the received stream differs from the sent block in at most half as many bytes
      as the block has error correction bytes. */
  ghost predicate Repairable(l: Layout, received: seq<Byte>, data: seq<Byte>)
    requires l.Valid() && |received| == l.raw && |data| == l.NumData()
  {
    var got, sent := Deinterleave(l, received), Deinterleave(l, Interleaved(l, data));
    forall j :: 0 <= j < l.numBlocks ==>
      |Word(got[j])| == |Word(sent[j])| && 2 * Distance(Word(got[j]), Word(sent[j])) <= l.eccLen
  }

  lemma BlockIsDetermined(l: Layout, received: seq<Byte>, u: seq<Byte>, v: seq<Byte>, j: nat)
    requires l.Valid() && |received| == l.raw && |u| == |v| == l.NumData() && j < l.numBlocks && l.ShortLen() < 255
    requires Repairable(l, received, u) && Repairable(l, received, v)
    ensures Blocks(l, u)[j] == Blocks(l, v)[j]
  {
    hide Deinterleave, Interleaved, Distance, Remainder, Generator, Eval, Root;
    var bu, bv := Blocks(l, u)[j], Blocks(l, v)[j];
    forall i | 0 <= i < l.eccLen
      ensures Eval(Word(bu), Root(i)) == Zero == Eval(Word(bv), Root(i))
    {
      BlocksAreCodewords(l, u, j, i); BlocksAreCodewords(l, v, j, i);
    }
    ErrorsAreCorrectable(Word(Deinterleave(l, received)[j]), Word(bu), Word(bv), l.eccLen);
    assert bu.data == Word(bu)[..l.DataLen(j)] && bu.ecc == Word(bu)[l.DataLen(j)..];
    assert bv.data == Word(bv)[..l.DataLen(j)] && bv.ecc == Word(bv)[l.DataLen(j)..];
  }

  /** In every version and level, a stream of codewords that was damaged in at most half as many
      bytes per block as there are error correction bytes determines the data that was sent. */
  lemma DamageIsRepairable(version: nat, e: Ecc, received: seq<Byte>, u: seq<Byte>, v: seq<Byte>)
    requires IsVersion(version) && |u| == |v| == NumDataCodewords(version, e)
    requires |received| == NumRawDataModules(version) / 8
    requires Repairable(LayoutOf(version, e), received, u) && Repairable(LayoutOf(version, e), received, v)
    ensures u == v
  {
    hide Repairable, Blocks, JoinData, NumDataCodewords, NumRawDataModules;
    var l := LayoutOf(version, e);
    hide LayoutOf;
    forall j | 0 <= j < l.numBlocks
      ensures Blocks(l, u)[j] == Blocks(l, v)[j]
    {
      BlockIsDetermined(l, received, u, v, j);
    }
    assert Blocks(l, u) == Blocks(l, v);
    SplitIsComplete(l, u, l.numBlocks);
    SplitIsComplete(l, v, l.numBlocks);
    l.DataExhausted();
    assert u[..|u|] == u && v[..|v|] == v;
  }

  // ----- grids

  lemma WholeBytes(version: nat, e: Ecc)
    requires IsVersion(version)
    ensures var raw := LayoutOf(version, e).raw;
            8 * raw <= |FreeModulesOf(version)| && 8 * raw % 8 == 0 && 8 * raw / 8 == raw
  {
    hide NumDataCodewords, FreeModulesOf, NumRawDataModules, LayoutOf, AllInside;
    var raw := LayoutOf(version, e).raw;
  }

  /** The codewords in a grid that is read as a symbol of this version, level and mask. */
  ghost function Codewords(g: Grid, version: nat, e: Ecc, msk: nat): (s: seq<Byte>)
    requires IsVersion(version) && Square(g, SizeOf(version)) && msk < 8
    ensures |s| == LayoutOf(version, e).raw
  {
    hide Masked, FunctionGrid, NumDataCodewords, FreeModulesOf, NumRawDataModules, Square, LayoutOf, ReadBits,
         ToBytes, AllInside;
    WholeBytes(version, e);
    var n, layout := SizeOf(version), LayoutOf(version, e);
    var plain := Masked(g, FunctionGrid(version), n, msk);
    var bits := ReadBits(plain, n, FreeModulesOf(version), 8 * layout.raw);
    ToBytes(bits)
  }

  lemma SymbolCodewords(version: nat, e: Ecc, data: seq<Byte>, msk: nat)
    requires IsVersion(version) && |data| == NumDataCodewords(version, e) && msk < 8
    ensures Codewords(Symbol(version, e, data, msk), version, e, msk) == Interleaved(LayoutOf(version, e), data)
  {
    hide Symbol, Masked, FunctionGrid, NumDataCodewords, FreeModulesOf, NumRawDataModules, Square, ReadBits,
         Interleaved, Unpack, ToBytes;
    CodewordsReadBack(version, e, data, msk);
    ToBytesUnpack(Interleaved(LayoutOf(version, e), data));
  }

  /** The grid differs from the symbol, in each block of codewords, in at most half as many bytes as
      there are error correction bytes; what the other modules hold does not matter. */
  ghost predicate Close(g: Grid, symbol: Grid, version: nat, e: Ecc, msk: nat)
    requires IsVersion(version) && Square(g, SizeOf(version)) && Square(symbol, SizeOf(version)) && msk < 8
  {
    var l := LayoutOf(version, e);
    var got := Deinterleave(l, Codewords(g, version, e, msk));
    var sent := Deinterleave(l, Codewords(symbol, version, e, msk));
    forall j :: 0 <= j < l.numBlocks ==>
      |Word(got[j])| == |Word(sent[j])| && 2 * Distance(Word(got[j]), Word(sent[j])) <= l.eccLen
  }

  /** At most one symbol of a version, level and mask is close to a grid. */
  lemma DamagedSymbol(version: nat, e: Ecc, msk: nat, g: Grid, u: seq<Byte>, v: seq<Byte>)
    requires IsVersion(version) && Square(g, SizeOf(version)) && msk < 8
    requires |u| == |v| == NumDataCodewords(version, e)
    requires Close(g, Symbol(version, e, u, msk), version, e, msk)
    requires Close(g, Symbol(version, e, v, msk), version, e, msk)
    ensures u == v
  {
    hide Symbol, Codewords, NumDataCodewords, NumRawDataModules, Square, Interleaved, Deinterleave, Distance, Word;
    SymbolCodewords(version, e, u, msk);
    SymbolCodewords(version, e, v, msk);
    DamageIsRepairable(version, e, Codewords(g, version, e, msk), u, v);
  }
}
