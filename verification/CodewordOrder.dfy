/** Interleaved codewords lie in the places of the standard, and their bits in the order of the
    standard. */
module CodewordOrder {
  import opened Gf256
  import opened BitBuffers
  import opened FieldNumbers
  import opened Interleaver
  import opened ReedSolomon
  import opened Standard

  /** The data codewords of a stream in the order of their blocks. */
  lemma {:induction false} PlacesAgree(l: Layout, stream: seq<Byte>, b: nat)
    requires l.Valid() && |stream| == l.raw && l.NumData() >= 0 && b <= l.numBlocks
    ensures var places, data := Places(l.NumData(), l.numBlocks, b), JoinData(Deinterleave(l, stream)[..b]);
            && |places| == |data|
            && forall k :: 0 <= k < |places| ==> 0 <= places[k] < l.raw && data[k] == stream[places[k]]
  {
    hide Entry, PlaceOf, BlockLength;
    var bs := Deinterleave(l, stream);
    if b != 0 {
      var c, data := b - 1, l.NumData();
      PlacesAgree(l, stream, c);
      assert bs[..b][..c] == bs[..c];
      LengthAgrees(l, c);
      forall k | 0 <= k < l.DataLen(c)
        ensures 0 <= PlaceOf(data, l.numBlocks, c, k) < l.raw
        ensures bs[c].data[k] == stream[PlaceOf(data, l.numBlocks, c, k)]
      {
        PlaceAgrees(l, stream, c, k);
      }
    }
  }

  lemma LengthAgrees(l: Layout, b: nat)
    requires l.Valid() && l.NumData() >= 0
    ensures l.NumData() / l.numBlocks == l.ShortData() && l.NumData() % l.numBlocks == l.raw % l.numBlocks
    ensures BlockLength(l.NumData(), l.numBlocks, b) == l.DataLen(b)
  {
    var n, q, r := l.numBlocks, l.ShortData(), l.raw % l.numBlocks;
    assert l.raw == l.raw / n * n + r;
    assert l.NumData() == q * n + r;
    DivisionIs(l.NumData(), n, q, r);
  }

  lemma DivisionIs(d: nat, n: nat, q: nat, r: nat)
    requires r < n && d == q * n + r
    ensures d / n == q && d % n == r
  {
    var a := d / n;
    if a > q {
      Rising(q + 1, a, n);
    } else if a < q {
      Rising(a + 1, q, n);
    }
  }

  lemma Rising(a: nat, b: nat, n: nat)
    requires a <= b
    ensures a * n <= b * n
  {
  }

  lemma PlaceAgrees(l: Layout, stream: seq<Byte>, b: nat, k: nat)
    requires l.Valid() && |stream| == l.raw && l.NumData() >= 0 && b < l.numBlocks && k < l.DataLen(b)
    ensures var at := PlaceOf(l.NumData(), l.numBlocks, b, k); 0 <= at < l.raw && Entry(l, stream, k, b) == stream[at]
  {
    hide l.RowOffset;
    LengthAgrees(l, b);
    l.RowOffsetIs(k);
    l.RowsAddUp(); l.RowOffsetMonotone(k + 1, l.ShortLen() + 1);
    RowStep(l, k);
  }

  lemma RowStep(l: Layout, k: nat)
    requires l.Valid()
    ensures l.RowOffset(k + 1) == l.RowOffset(k) + l.numBlocks - l.FirstInRow(k)
  {
  }

  // ----- bits

  function Selected(stream: seq<Byte>, places: seq<int>): (s: seq<Byte>)
    requires forall k :: 0 <= k < |places| ==> 0 <= places[k] < |stream|
    ensures |s| == |places|
  {
    seq(|places|, k requires 0 <= k < |places| => stream[places[k]])
  }

  /** Gathering codewords from a stream of bits gathers them from the stream of codewords. */
  lemma {:induction false} GatherAgrees(stream: seq<Byte>, places: seq<int>)
    requires forall k :: 0 <= k < |places| ==> 0 <= places[k] < |stream|
    ensures |Unpack(stream)| == 8 * |stream|
    ensures Gather(Unpack(stream), places) == Unpack(Selected(stream, places))
  {
    hide ByteBits;
    if places == [] {
    } else {
      var m := |places| - 1;
      GatherAgrees(stream, places[..m]);
      BitsOfByte(stream, places[m]);
      var selected := Selected(stream, places);
      assert selected[..m] == Selected(stream, places[..m]);
    }
  }

  lemma BitsOfByte(stream: seq<Byte>, k: nat)
    requires k < |stream|
    ensures Unpack(stream)[8 * k..8 * k + 8] == ByteBits(stream[k])
  {
    hide Unpack, ByteBits;
    forall j | 0 <= j < 8
      ensures Unpack(stream)[8 * k + j] == ByteBits(stream[k])[j]
    {
      var i := 8 * k + j;
      assert i / 8 == k && i % 8 == j;
      UnpackAt(stream, i);
    }
  }

  // ----- error correction

  /** The place of an error correction codeword. */
  lemma CheckPlaceAgrees(l: Layout, stream: seq<Byte>, b: nat, k: nat)
    requires l.Valid() && |stream| == l.raw && l.NumData() >= 0 && b < l.numBlocks && k < l.eccLen
    ensures var at := l.NumData() + k * l.numBlocks + b;
            0 <= at < l.raw && Entry(l, stream, l.ShortData() + 1 + k, b) == stream[at]
  {
    hide l.RowOffset;
    var n, q, row := l.numBlocks, l.ShortData(), l.ShortData() + 1 + k;
    LengthAgrees(l, b);
    l.RowOffsetIs(row);
    l.RowsAddUp(); l.RowOffsetMonotone(row + 1, l.ShortLen() + 1);
    RowStep(l, row);
    assert row * n == q * n + n + k * n;
    assert l.NumData() == q * n + l.raw % n;
  }

  lemma CodewordIsByte(stream: seq<Byte>, place: nat)
    requires place < |stream|
    ensures CodewordAt(Unpack(stream), place) == Value(stream[place])
  {
    hide Unpack, ByteBits, Value, Field;
    BitsOfByte(stream, place);
    FieldOfByte(stream[place]);
  }

  /** The codewords of a block of the standard are the bytes of a block of the encoder. */
  lemma BlockWordIs(l: Layout, stream: seq<Byte>, b: nat)
    requires l.Valid() && |stream| == l.raw && l.NumData() >= 0 && b < l.numBlocks
    ensures var block := Deinterleave(l, stream)[b];
            BlockWord(Unpack(stream), l.NumData(), l.numBlocks, l.eccLen, b) == Values(block.data + block.ecc)
  {
    hide Unpack, Value, CodewordAt, Entry, PlaceOf, BlockLength;
    var block := Deinterleave(l, stream)[b];
    var word := BlockWord(Unpack(stream), l.NumData(), l.numBlocks, l.eccLen, b);
    LengthAgrees(l, b);
    forall k | 0 <= k < |word|
      ensures word[k] == Value((block.data + block.ecc)[k])
    {
      if k < l.DataLen(b) {
        PlaceAgrees(l, stream, b, k);
        CodewordIsByte(stream, PlaceOf(l.NumData(), l.numBlocks, b, k));
      } else {
        var m := k - l.DataLen(b);
        CheckPlaceAgrees(l, stream, b, m);
        CodewordIsByte(stream, l.NumData() + m * l.numBlocks + b);
      }
    }
  }

  /** Every block of an interleaved stream vanishes at the powers of 2 that the standard names. */
  lemma InterleavedVanishes(l: Layout, data: seq<Byte>)
    requires l.Valid() && |data| == l.NumData()
    ensures BlocksVanish(Unpack(Interleaved(l, data)), l.NumData(), l.numBlocks, l.eccLen)
  {
    hide Unpack, Interleaved, Blocks, Deinterleave, BlockWord, ValueAt, Alpha, Values;
    var stream := Interleaved(l, data);
    forall b, i | 0 <= b < l.numBlocks && 0 <= i < l.eccLen
      ensures ValueAt(BlockWord(Unpack(stream), l.NumData(), l.numBlocks, l.eccLen, b), Alpha(i)) == 0
    {
      var block := Blocks(l, data)[b];
      BlockWordIs(l, stream, b);
      BlocksAreCodewords(l, data, b, i);
      VanishesAsNumbers(block.data + block.ecc, i);
    }
  }
}
