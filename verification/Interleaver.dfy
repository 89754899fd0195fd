/** Splitting the data into blocks, appending the error correction bytes of each block, and
    interleaving the blocks; with the de-interleaver that takes the result apart again. */
module Interleaver {
  import opened Gf256
  import opened Polynomial
  import opened ReedSolomon
  import opened Wrappers

  /** The block structure of a symbol: the number of blocks, the error correction bytes of each
      block, and the total number of codewords. */
  datatype Layout = Layout(numBlocks: nat, eccLen: nat, raw: nat) {
    ghost predicate Valid() {
      numBlocks >= 1 && 1 <= eccLen <= 255 && eccLen <= raw / numBlocks
    }

    /** The blocks that are one byte shorter than the others come first. */
    function NumShort(): (n: nat)
      requires Valid()
      ensures 1 <= n <= numBlocks
    {
      numBlocks - raw % numBlocks
    }

    function ShortLen(): nat
      requires Valid()
    {
      raw / numBlocks
    }

    /** The number of data bytes in a short block, which is also the row of the padding byte. */
    function ShortData(): nat
      requires Valid()
    {
      ShortLen() - eccLen
    }

    /** The number of data bytes in block i. */
    function DataLen(i: nat): nat
      requires Valid()
    {
      ShortData() + if i < NumShort() then 0 else 1
    }

    /** Where the data of block i starts. */
    function DataStart(i: nat): nat
      requires Valid()
    {
      if i == 0 then 0 else DataStart(i - 1) + DataLen(i - 1)
    }

    function NumData(): int { raw - eccLen * numBlocks }

    /** The first block that contributes to row i: the short blocks have no byte in the padding row. */
    function FirstInRow(i: nat): (n: nat)
      requires Valid()
      ensures n <= numBlocks
    {
      if i == ShortData() then NumShort() else 0
    }

    /** The number of bytes in the rows before row i. */
    function RowOffset(i: nat): nat
      requires Valid()
    {
      if i == 0 then 0 else RowOffset(i - 1) + numBlocks - FirstInRow(i - 1)
    }

    lemma {:induction false} DataStartIs(i: nat)
      requires Valid() && i <= numBlocks
      ensures DataStart(i) == i * ShortData() + if i <= NumShort() then 0 else i - NumShort()
    {
      if i != 0 { DataStartIs(i - 1); }
    }

    /** The blocks consume the data exactly. */
    lemma DataExhausted()
      requires Valid()
      ensures DataStart(numBlocks) == NumData()
    {
      DataStartIs(numBlocks);
      var b, s := numBlocks, ShortLen();
      assert raw == s * b + raw % b;
      assert b * (s - eccLen) == s * b - eccLen * b;
    }

    lemma {:induction false} DataStartMonotone(i: nat, j: nat)
      requires Valid() && i <= j
      ensures DataStart(i) <= DataStart(j)
    {
      if i < j { DataStartMonotone(i, j - 1); }
    }

    lemma {:induction false} RowOffsetIs(i: nat)
      requires Valid()
      ensures RowOffset(i) == i * numBlocks - if i <= ShortData() then 0 else NumShort()
    {
      if i != 0 {
        RowOffsetIs(i - 1);
        assert i * numBlocks == (i - 1) * numBlocks + numBlocks;
      }
    }

    /** The rows emit exactly the raw number of codewords. */
    lemma RowsAddUp()
      requires Valid()
      ensures RowOffset(ShortLen() + 1) == raw
    {
      RowOffsetIs(ShortLen() + 1);
      var b, s := numBlocks, ShortLen();
      assert (s + 1) * b == s * b + b;
      assert raw == s * b + raw % b;
    }

    lemma {:induction false} RowOffsetMonotone(i: nat, j: nat)
      requires Valid() && i <= j
      ensures RowOffset(i) <= RowOffset(j)
    {
      if i < j { RowOffsetMonotone(i, j - 1); }
    }
  }

  /** One block: its data bytes and its error correction bytes. */
  datatype Block = Block(data: seq<Byte>, ecc: seq<Byte>)

  /** Block i of the given data. */
  function BlockOf(l: Layout, data: seq<Byte>, i: nat): (b: Block)
    requires l.Valid() && |data| == l.NumData() && i < l.numBlocks
    ensures |b.data| == l.DataLen(i) && |b.ecc| == l.eccLen
  {
    l.DataExhausted(); l.DataStartMonotone(i + 1, l.numBlocks);
    var part := data[l.DataStart(i)..l.DataStart(i + 1)];
    Block(part, Remainder(part, Generator(l.eccLen)[1..]))
  }

  function Blocks(l: Layout, data: seq<Byte>): (bs: seq<Block>)
    requires l.Valid() && |data| == l.NumData()
    ensures |bs| == l.numBlocks
  {
    seq(l.numBlocks, i requires 0 <= i < l.numBlocks => BlockOf(l, data, i))
  }

  /** The data of the first n blocks, in order. */
  function JoinData(bs: seq<Block>): seq<Byte> {
    if bs == [] then [] else JoinData(bs[..|bs| - 1]) + bs[|bs| - 1].data
  }

  /** Splitting loses and repeats nothing. */
  lemma {:induction false} SplitIsComplete(l: Layout, data: seq<Byte>, n: nat)
    requires l.Valid() && |data| == l.NumData() && n <= l.numBlocks
    ensures l.DataStart(n) <= |data|
    ensures JoinData(Blocks(l, data)[..n]) == data[..l.DataStart(n)]
  {
    hide Remainder, Generator;
    l.DataExhausted(); l.DataStartMonotone(n, l.numBlocks);
    if n != 0 {
      SplitIsComplete(l, data, n - 1);
      var bs := Blocks(l, data);
      assert bs[..n][..n - 1] == bs[..n - 1];
      assert data[..l.DataStart(n)] == data[..l.DataStart(n - 1)] + data[l.DataStart(n - 1)..l.DataStart(n)];
    }
  }

  /** Every block is a Reed-Solomon codeword: it vanishes at all roots. */
  lemma BlocksAreCodewords(l: Layout, data: seq<Byte>, i: nat, j: nat)
    requires l.Valid() && |data| == l.NumData() && i < l.numBlocks && j < l.eccLen
    ensures var b := Blocks(l, data)[i]; Eval(b.data + b.ecc, Root(j)) == Zero
  {
    hide Remainder, Generator, Eval, Root;
    EncodedIsCodeword(Blocks(l, data)[i].data, l.eccLen);
  }

  // ----- the de-interleaver

  /** Byte i of block j in the interleaved stream; row i counts the padding row. */
  function Entry(l: Layout, stream: seq<Byte>, i: nat, j: nat): Byte
    requires l.Valid() && |stream| == l.raw && i <= l.ShortLen() && l.FirstInRow(i) <= j < l.numBlocks
  {
    l.RowsAddUp(); l.RowOffsetMonotone(i + 1, l.ShortLen() + 1);
    stream[l.RowOffset(i) + j - l.FirstInRow(i)]
  }

  function Deinterleave(l: Layout, stream: seq<Byte>): (bs: seq<Block>)
    requires l.Valid() && |stream| == l.raw
    ensures |bs| == l.numBlocks
  {
    seq(l.numBlocks, j requires 0 <= j < l.numBlocks =>
      Block(seq(l.DataLen(j), i requires 0 <= i < l.DataLen(j) => Entry(l, stream, i, j)),
            seq(l.eccLen, i requires 0 <= i < l.eccLen => Entry(l, stream, l.ShortData() + 1 + i, j))))
  }

  // ----- the encoder's loops

  /** Block i as the encoder stores it: short blocks carry a padding byte between data and ECC. */
  function Stored(l: Layout, b: Block, i: nat): seq<Byte>
    requires l.Valid()
  {
    b.data + (if i < l.NumShort() then [Zero] else []) + b.ecc
  }

  /** Row i of the stored blocks, without the padding bytes. */
  function Row(l: Layout, stored: seq<seq<Byte>>, i: nat): (r: seq<Byte>)
    requires l.Valid() && |stored| == l.numBlocks
    requires forall j :: 0 <= j < |stored| ==> i < |stored[j]|
    ensures |r| == l.numBlocks - l.FirstInRow(i)
  {
    var first := l.FirstInRow(i);
    seq(l.numBlocks - first, j requires 0 <= j < l.numBlocks - first => stored[first + j][i])
  }

  ghost predicate FullBlocks(l: Layout, stored: seq<seq<Byte>>) {
    l.Valid() && |stored| == l.numBlocks && forall j :: 0 <= j < |stored| ==> |stored[j]| == l.ShortLen() + 1
  }

  /** The first n rows, one after the other. */
  function Rows(l: Layout, stored: seq<seq<Byte>>, n: nat): (r: seq<Byte>)
    requires FullBlocks(l, stored) && n <= l.ShortLen() + 1
    ensures |r| == l.RowOffset(n)
  {
    if n == 0 then [] else Rows(l, stored, n - 1) + Row(l, stored, n - 1)
  }

  lemma {:induction false} RowsAt(l: Layout, stored: seq<seq<Byte>>, n: nat, i: nat, j: nat)
    requires FullBlocks(l, stored) && i < n <= l.ShortLen() + 1
    requires l.FirstInRow(i) <= j < l.numBlocks
    ensures l.RowOffset(i + 1) <= l.RowOffset(n)
    ensures Rows(l, stored, n)[l.RowOffset(i) + j - l.FirstInRow(i)] == stored[j][i]
  {
    l.RowOffsetMonotone(i + 1, n);
    if i != n - 1 { RowsAt(l, stored, n - 1, i, j); }
  }

  /** Taking the rows apart returns every block, with no padding byte in it. */
  lemma DeinterleaveRows(l: Layout, bs: seq<Block>, stored: seq<seq<Byte>>)
    requires l.Valid() && |bs| == l.numBlocks == |stored|
    requires forall j :: 0 <= j < |bs| ==> |bs[j].data| == l.DataLen(j) && |bs[j].ecc| == l.eccLen
    requires forall j :: 0 <= j < |bs| ==> stored[j] == Stored(l, bs[j], j)
    ensures FullBlocks(l, stored)
    ensures |Rows(l, stored, l.ShortLen() + 1)| == l.raw
    ensures Deinterleave(l, Rows(l, stored, l.ShortLen() + 1)) == bs
  {
    l.RowsAddUp();
    var n := l.ShortLen() + 1;
    var stream := Rows(l, stored, n);
    var got := Deinterleave(l, stream);
    forall j | 0 <= j < l.numBlocks
      ensures got[j] == bs[j]
    {
      DeinterleaveBlock(l, bs[j], stored, j);
    }
  }

  lemma DeinterleaveBlock(l: Layout, b: Block, stored: seq<seq<Byte>>, j: nat)
    requires FullBlocks(l, stored) && j < l.numBlocks
    requires |b.data| == l.DataLen(j) && |b.ecc| == l.eccLen && stored[j] == Stored(l, b, j)
    requires |Rows(l, stored, l.ShortLen() + 1)| == l.raw
    ensures Deinterleave(l, Rows(l, stored, l.ShortLen() + 1))[j] == b
  {
    hide l.RowOffset, Rows;
    var n := l.ShortLen() + 1;
    var stream := Rows(l, stored, n);
    var got := Deinterleave(l, stream)[j];
    forall i | 0 <= i < l.DataLen(j)
      ensures got.data[i] == b.data[i]
    {
      RowsAt(l, stored, n, i, j);
      assert stored[j][i] == b.data[i];
    }
    forall i | 0 <= i < l.eccLen
      ensures got.ecc[i] == b.ecc[i]
    {
      RowsAt(l, stored, n, l.ShortData() + 1 + i, j);
      assert stored[j][l.ShortData() + 1 + i] == b.ecc[i];
      assert got.ecc[i] == Entry(l, stream, l.ShortData() + 1 + i, j);
    }
    assert got.data == b.data && got.ecc == b.ecc;
  }

  /** Every index of the stream is one entry of one row. */
  lemma {:induction false} FindEntry(l: Layout, k: nat, n: nat) returns (i: nat, j: nat)
    requires l.Valid() && k < l.RowOffset(n)
    ensures i < n && l.FirstInRow(i) <= j < l.numBlocks
    ensures k == l.RowOffset(i) + j - l.FirstInRow(i)
  {
    if k >= l.RowOffset(n - 1) {
      i, j := n - 1, k - l.RowOffset(n - 1) + l.FirstInRow(n - 1);
    } else {
      i, j := FindEntry(l, k, n - 1);
    }
  }

  /** The blocks determine the stream: no codeword is left out of the de-interleaved blocks. */
  lemma DeinterleaveIsInjective(l: Layout, s: seq<Byte>, t: seq<Byte>)
    requires l.Valid() && |s| == |t| == l.raw
    requires Deinterleave(l, s) == Deinterleave(l, t)
    ensures s == t
  {
    hide l.RowOffset;
    l.RowsAddUp();
    forall k | 0 <= k < l.raw
      ensures s[k] == t[k]
    {
      var i, j := FindEntry(l, k, l.ShortLen() + 1);
      var bs, bt := Deinterleave(l, s)[j], Deinterleave(l, t)[j];
      if i < l.DataLen(j) {
        assert bs.data[i] == Entry(l, s, i, j) && bt.data[i] == Entry(l, t, i, j);
      } else {
        var m := i - l.ShortData() - 1;
        assert bs.ecc[m] == Entry(l, s, i, j) && bt.ecc[m] == Entry(l, t, i, j);
      }
    }
  }

  /** Splits the data into blocks and appends the error correction bytes of each. */
  method SplitIntoBlocks(l: Layout, data: seq<Byte>) returns (stored: seq<seq<Byte>>)
    requires l.Valid() && |data| == l.NumData()
    ensures |stored| == l.numBlocks
    ensures forall j :: 0 <= j < |stored| ==> stored[j] == Stored(l, Blocks(l, data)[j], j)
  {
    hide Remainder, Generator, l.DataStart;
    stored := [];
    var divisor := ComputeDivisor(l.eccLen);
    var k := 0;
    DataStartStep(l, 0);
    l.DataExhausted();
    for i := 0 to l.numBlocks
      invariant k == l.DataStart(i)
      invariant |stored| == i
      invariant forall j :: 0 <= j < i ==> stored[j] == Stored(l, Blocks(l, data)[j], j)
    {
      DataStartStep(l, i); l.DataStartMonotone(i + 1, l.numBlocks);
      var dat := data[k..k + l.ShortLen() - l.eccLen + if i < l.NumShort() then 0 else 1];
      k := k + |dat|;
      var ecc := ComputeRemainder(dat, divisor.value);
      ghost var part := dat;
      if i < l.NumShort() {
        dat := dat + [Zero];
      }
      dat := dat + ecc.value;
      assert Block(part, ecc.value) == Blocks(l, data)[i];
      stored := stored + [dat];
    }
  }

  lemma DataStartStep(l: Layout, i: nat)
    requires l.Valid()
    ensures l.DataStart(0) == 0 && l.DataStart(i + 1) == l.DataStart(i) + l.DataLen(i)
  {
  }

  /** Interleaves the stored blocks, skipping the padding bytes of the short ones. */
  method InterleaveBlocks(l: Layout, stored: seq<seq<Byte>>) returns (result: seq<Byte>)
    requires FullBlocks(l, stored)
    ensures result == Rows(l, stored, l.ShortLen() + 1)
  {
    result := [];
    for i := 0 to |stored[0]|
      invariant result == Rows(l, stored, i)
    {
      ghost var first := l.FirstInRow(i);
      for j := 0 to |stored|
        invariant result == Rows(l, stored, i) + Row(l, stored, i)[..if j < first then 0 else j - first]
      {
        if i != l.ShortLen() - l.eccLen || j >= l.NumShort() {
          result := result + [stored[j][i]];
        }
      }
      assert Row(l, stored, i)[..l.numBlocks - first] == Row(l, stored, i);
    }
  }

  /** Appends error correction to the data and interleaves the blocks; None is the exception for
      data of the wrong length. De-interleaving the result gives back every block. */
  method AddEccAndInterleave(l: Layout, data: seq<Byte>) returns (r: Option<seq<Byte>>)
    requires l.Valid()
    ensures r.Some? <==> |data| == l.NumData()
    ensures r.Some? ==> |r.value| == l.raw && Deinterleave(l, r.value) == Blocks(l, data)
  {
    hide Remainder, Generator, Deinterleave, Rows;
    if |data| != l.NumData() { return None; }
    var stored := SplitIntoBlocks(l, data);
    DeinterleaveRows(l, Blocks(l, data), stored);
    var result := InterleaveBlocks(l, stored);
    return Some(result);
  }

  /** The interleaved codewords of the data, as a value. */
  ghost function Interleaved(l: Layout, data: seq<Byte>): (stream: seq<Byte>)
    requires l.Valid() && |data| == l.NumData()
    ensures |stream| == l.raw && Deinterleave(l, stream) == Blocks(l, data)
  {
    var bs := Blocks(l, data);
    var stored := seq(l.numBlocks, j requires 0 <= j < l.numBlocks => Stored(l, bs[j], j));
    DeinterleaveRows(l, bs, stored);
    Rows(l, stored, l.ShortLen() + 1)
  }
}
