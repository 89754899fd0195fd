/** The candidates among which the mask is chosen, and the finished symbol. */
module MaskChoice {
  import opened Gf256
  import opened BitBuffers
  import opened Zigzag
  import opened Penalty
  import opened Versions
  import opened Interleaver
  import opened FunctionPatterns
  import opened Capacity
  import opened Integers

  /** The free modules of a version in zigzag order. */
  ghost function FreeModulesOf(version: nat): (free: seq<Pos>)
    requires IsVersion(version)
    ensures AllInside(free, SizeOf(version)) && Distinct(free) && |free| == NumRawDataModules(version)
  {
    hide Scan, Free, FunctionGrid, NumRawDataModules;
    var n, fn := SizeOf(version), FunctionGrid(version);
    FunctionGridMarks(version);
    FreeCount(fn, n); FreeModules(version);
    FreeLength(Scan(n, n - 1), fn, n);
    ScanCovers(n, n - 1);
    FreeIsFiltered(Scan(n, n - 1), fn, n);
    Free(Scan(n, n - 1), fn, n)
  }

  /** Column 6 and all format modules are function modules. */
  lemma FunctionGridMarks(version: nat)
    requires IsVersion(version)
    ensures Column6Marked(FunctionGrid(version), SizeOf(version))
    ensures FormatMarked(FunctionGrid(version), SizeOf(version))
  {
    hide FunctionGrid, NearAlignment, IsFormat;
    var n, fn := SizeOf(version), FunctionGrid(version);
    forall y | 0 <= y < n
      ensures fn[y][6]
    {
      FunctionGridAt(version, Pos(6, y));
      assert Get(fn, n, Pos(6, y));
    }
    forall p | Inside(p, n) && IsFormat(n, p)
      ensures Get(fn, n, p)
    {
      FunctionGridAt(version, p);
    }
  }

  /** Drawing format bits again marks nothing new. */
  lemma FormatMarksAgain(fn: Grid, n: nat)
    requires Square(fn, n) && n >= 21 && FormatMarked(fn, n)
    ensures MarkFormat(fn, n) == fn
  {
    hide IsFormat, MarkFormat;
    forall p | Inside(p, n)
      ensures Get(MarkFormat(fn, n), n, p) == Get(fn, n, p)
    {
      MarksAt(fn, n, p);
    }
    GridEquality(MarkFormat(fn, n), fn, n);
  }

  /** The symbol before masking: function patterns and interleaved codewords. */
  ghost function Unmasked(version: nat, e: Ecc, data: seq<Byte>): (g: Grid)
    requires IsVersion(version) && |data| == NumDataCodewords(version, e)
    ensures Square(g, SizeOf(version))
  {
    Placed(PatternGrid(version, FormatBits(e, 0)), SizeOf(version), FreeModulesOf(version),
           Unpack(Interleaved(LayoutOf(version, e), data)))
  }

  /** The finished symbol for a mask: masked once, with the format bits of that mask. */
  ghost function Symbol(version: nat, e: Ecc, data: seq<Byte>, msk: nat): (g: Grid)
    requires IsVersion(version) && |data| == NumDataCodewords(version, e) && msk < 8
    ensures Square(g, SizeOf(version))
  {
    var n := SizeOf(version);
    WithFormat(Masked(Unmasked(version, e, data), FunctionGrid(version), n, msk), n, FormatBits(e, msk))
  }

  /** The lowest index among the masks of minimal penalty. */
  ghost predicate IsBestMask(version: nat, e: Ecc, data: seq<Byte>, msk: nat)
    requires IsVersion(version) && |data| == NumDataCodewords(version, e) && msk < 8
  {
    var n := SizeOf(version);
    forall i: nat :: i < 8 ==>
      && Score(Symbol(version, e, data, msk), n) <= Score(Symbol(version, e, data, i), n)
      && (i < msk ==> Score(Symbol(version, e, data, msk), n) < Score(Symbol(version, e, data, i), n))
  }

  // ----- every score is below the initial minimum

  /** LONG_MAX in its narrowest width. */
  const LONG_MAX: int := 0x7FFF_FFFF

  lemma SubsetSize<T>(a: set<T>, b: set<T>)
    requires a <= b
    ensures |a| <= |b|
  {
    DisjointSize(a, b - a);
    assert a + (b - a) == b;
  }

  lemma BalanceBound(black: nat, total: nat)
    requires 0 < total && black <= total
    ensures BalanceTerm(black, total) <= 9
  {
    CeilingDivision(Abs(black * 20 - total * 10), total, 10);
  }

  lemma ScoreBound(g: Grid, n: nat)
    requires Square(g, n) && 1 <= n <= 177
    ensures Score(g, n) < LONG_MAX
  {
    hide RowSum, ColumnSum, BalanceTerm, Rect;
    SumsBound(g, n, n);
    SubsetSize(BlockSet(g, n), Rect(0, 0, n, n)); SubsetSize(BlackSet(g, n), Rect(0, 0, n, n));
    RectSize(0, 0, n, n);
    BalanceBound(|BlackSet(g, n)|, n * n);
    assert n * (81 * n + 160) <= 177 * (81 * 177 + 160) by { ProductBound(n, 81 * n + 160, 177, 81 * 177 + 160); }
    assert n * n <= 177 * 177 by { ProductBound(n, n, 177, 177); }
  }

  lemma ProductBound(a: nat, b: nat, c: nat, d: nat)
    requires a <= c && b <= d
    ensures a * b <= c * d
  {
    MulMonotone(a, c, b); MulMonotone(b, d, c);
  }
}
