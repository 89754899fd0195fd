/** How many modules the function patterns leave free: exactly as many as the capacity formula
    says, for every version. */
module Capacity {
  import opened Zigzag
  import opened Versions
  import opened FunctionPatterns
  import opened Integers

  // ----- which modules are function modules

  /** Whether a module is within 2 of the centre of a drawn alignment pattern. */
  ghost predicate NearAlignment(version: nat, p: Pos) {
    version >= 2 && exists i, j :: Covers(version, i, j, p)
  }

  predicate Covers(version: nat, i: nat, j: nat, p: Pos)
    requires version >= 2
  {
    i < AlignCount(version) && j < AlignCount(version) && !OnFinder(AlignCount(version), i, j)
    && Dist(p, AlignAt(version, i), AlignAt(version, j)) <= 2
  }

  ghost predicate IsFunctionModule(version: nat, p: Pos) {
    var n := SizeOf(version);
    || p.x == 6 || p.y == 6
    || Dist(p, 3, 3) <= 4 || Dist(p, n - 4, 3) <= 4 || Dist(p, 3, n - 4) <= 4
    || NearAlignment(version, p)
    || (n >= 21 && IsFormat(n, p))
    || (version >= 7 && VersionCell(n, p) >= 0)
  }

  lemma StampMarks(g: Grid, n: nat, cx: int, cy: int, r: nat, p: Pos)
    requires Square(g, n) && Inside(p, n)
    ensures Get(Stamp(g, n, cx, cy, r, Marked), n, p) == (Dist(p, cx, cy) <= r || Get(g, n, p))
  {
  }

  /** Whether one of the patterns drawn before pattern j of position i covers a module. */
  ghost predicate CoveredBefore(version: nat, i: nat, j: nat, p: Pos)
    requires version >= 2
  {
    exists a: nat, b: nat :: Earlier(a, b, i, j) && Covers(version, a, b, p)
  }

  predicate Earlier(a: nat, b: nat, i: nat, j: nat) { a < i || (a == i && b < j) }

  lemma CoveredStep(version: nat, i: nat, j: nat, p: Pos)
    requires version >= 2
    ensures CoveredBefore(version, i, j + 1, p) <==> CoveredBefore(version, i, j, p) || Covers(version, i, j, p)
  {
    hide Covers;
    if CoveredBefore(version, i, j, p) {
      var a: nat, b: nat :| Earlier(a, b, i, j) && Covers(version, a, b, p);
      assert Earlier(a, b, i, j + 1);
    }
    if Covers(version, i, j, p) { assert Earlier(i, j, i, j + 1); }
    if CoveredBefore(version, i, j + 1, p) && !Covers(version, i, j, p) {
      var a: nat, b: nat :| Earlier(a, b, i, j + 1) && Covers(version, a, b, p);
      assert Earlier(a, b, i, j);
    }
  }

  lemma CoveredRow(version: nat, i: nat, p: Pos)
    requires version >= 2
    ensures CoveredBefore(version, i + 1, 0, p) <==> CoveredBefore(version, i, AlignCount(version), p)
  {
    hide AlignAt, Dist;
    if CoveredBefore(version, i + 1, 0, p) {
      var a: nat, b: nat :| Earlier(a, b, i + 1, 0) && Covers(version, a, b, p);
      assert Earlier(a, b, i, AlignCount(version));
    }
    if CoveredBefore(version, i, AlignCount(version), p) {
      var a: nat, b: nat :| Earlier(a, b, i, AlignCount(version)) && Covers(version, a, b, p);
      assert Earlier(a, b, i + 1, 0);
    }
  }

  /** The alignment marks drawn so far cover exactly the patterns drawn so far. */
  lemma {:induction false} AlignmentMarks(g: Grid, version: nat, i: nat, j: nat, p: Pos)
    requires 2 <= version <= 40 && Square(g, SizeOf(version)) && Inside(p, SizeOf(version))
    requires i <= AlignCount(version) && j <= AlignCount(version) && (i == AlignCount(version) ==> j == 0)
    ensures Get(Alignments(g, version, i, j, Marked), SizeOf(version), p) <==>
      Get(g, SizeOf(version), p) || CoveredBefore(version, i, j, p)
    decreases i, j
  {
    hide Stamp, AlignAt, Get, Dist;
    var n := SizeOf(version);
    if j > 0 {
      AlignmentMarks(g, version, i, j - 1, p);
      var before := Alignments(g, version, i, j - 1, Marked);
      StampMarks(before, n, AlignAt(version, i), AlignAt(version, j - 1), 2, p);
      CoveredStep(version, i, j - 1, p);
    } else if i > 0 {
      AlignmentMarks(g, version, i - 1, AlignCount(version), p);
      CoveredRow(version, i - 1, p);
    }
  }

  /** The marks of the function patterns are exactly the function modules. */
  lemma FunctionGridAt(version: nat, p: Pos)
    requires IsVersion(version) && Inside(p, SizeOf(version))
    ensures Get(FunctionGrid(version), SizeOf(version), p) <==> IsFunctionModule(version, p)
  {
    hide Stamp, Alignments, Dist, IsFormat, VersionCell;
    var n := SizeOf(version);
    var timing := Timing(Blank(n), n, true);
    assert Get(timing, n, p) <==> p.x == 6 || p.y == 6;
    var s1 := Stamp(timing, n, 3, 3, 4, Marked);
    var s2 := Stamp(s1, n, n - 4, 3, 4, Marked);
    var s3 := Stamp(s2, n, 3, n - 4, 4, Marked);
    StampMarks(timing, n, 3, 3, 4, p); StampMarks(s1, n, n - 4, 3, 4, p); StampMarks(s2, n, 3, n - 4, 4, p);
    var a := Alignments(s3, version, AlignCount(version), 0, Marked);
    AlignedAt(s3, version, p);
    MarksAt(a, n, p);
    if version >= 7 { VersionMarksAt(MarkFormat(a, n), n, p); }
  }

  lemma AlignedAt(g: Grid, version: nat, p: Pos)
    requires IsVersion(version) && Square(g, SizeOf(version)) && Inside(p, SizeOf(version))
    ensures Get(Alignments(g, version, AlignCount(version), 0, Marked), SizeOf(version), p) <==>
      Get(g, SizeOf(version), p) || NearAlignment(version, p)
  {
    hide Alignments, AlignAt, Get, Dist;
    if version >= 2 {
      AlignmentMarks(g, version, AlignCount(version), 0, p);
      if NearAlignment(version, p) {
        var a: nat, b: nat :| Covers(version, a, b, p);
        assert Earlier(a, b, AlignCount(version), 0);
      }
    } else {
      NoAlignments(g, Marked);
    }
  }

  lemma NoAlignments(g: Grid, k: Rings)
    requires Square(g, SizeOf(1))
    ensures Alignments(g, 1, 0, 0, k) == g
  {
  }

  lemma MarksAt(g: Grid, n: nat, p: Pos)
    requires Square(g, n) && n >= 21 && Inside(p, n)
    ensures Get(MarkFormat(g, n), n, p) <==> Get(g, n, p) || IsFormat(n, p)
  {
  }

  lemma VersionMarksAt(g: Grid, n: nat, p: Pos)
    requires Square(g, n) && Inside(p, n)
    ensures Get(WithVersion(g, n, AllSet(18)), n, p) <==> Get(g, n, p) || VersionCell(n, p) >= 0
  {
  }

  // ----- counting products of coordinate sets

  lemma DisjointSize<T>(a: set<T>, b: set<T>)
    requires forall t :: t in a ==> t !in b
    ensures |a + b| == |a| + |b|
  {
    assert a * b == {};
  }

  ghost function Span(lo: nat, hi: nat): (s: set<nat>)
    ensures forall c :: c in s <==> lo <= c < hi
  {
    if hi <= lo then {} else Span(lo, hi - 1) + {hi - 1}
  }

  lemma {:induction false} SpanSize(lo: nat, hi: nat)
    requires lo <= hi
    ensures |Span(lo, hi)| == hi - lo
  {
    if lo < hi {
      SpanSize(lo, hi - 1);
      DisjointSize(Span(lo, hi - 1), {hi - 1});
    }
  }

  ghost function Product(xs: set<nat>, ys: set<nat>): (s: set<Pos>)
    ensures forall p :: p in s <==> p.x in xs && p.y in ys
  {
    set x, y | x in xs && y in ys :: Pos(x, y)
  }

  lemma {:induction false} ProductSize(xs: set<nat>, ys: set<nat>)
    ensures |Product(xs, ys)| == |xs| * |ys|
  {
    hide Product;
    if xs == {} {
      assert Product(xs, ys) == {};
    } else {
      var x :| x in xs;
      var rest := xs - {x};
      ProductSize(rest, ys);
      ColumnSize(x, ys);
      assert Product(xs, ys) == Product(rest, ys) + Product({x}, ys);
      DisjointSize(Product(rest, ys), Product({x}, ys));
      DisjointSize(rest, {x});
      assert rest + {x} == xs;
      assert (|xs| - 1) * |ys| + |ys| == |xs| * |ys|;
    }
  }

  lemma {:induction false} ColumnSize(x: nat, ys: set<nat>)
    ensures |Product({x}, ys)| == |ys|
  {
    hide Product;
    if ys == {} {
      assert Product({x}, ys) == {};
    } else {
      var y :| y in ys;
      ColumnSize(x, ys - {y});
      assert Product({x}, ys) == Product({x}, ys - {y}) + {Pos(x, y)};
    }
  }

  ghost function Rect(x: nat, y: nat, w: nat, h: nat): (s: set<Pos>)
    ensures forall p :: p in s <==> x <= p.x < x + w && y <= p.y < y + h
  {
    Product(Span(x, x + w), Span(y, y + h))
  }

  lemma RectSize(x: nat, y: nat, w: nat, h: nat)
    ensures |Rect(x, y, w, h)| == w * h
  {
    hide Product, Span;
    SpanSize(x, x + w); SpanSize(y, y + h);
    ProductSize(Span(x, x + w), Span(y, y + h));
  }

  // ----- the alignment coordinates

  /** The coordinates within 2 of an alignment position after the first. */
  ghost function Around(version: nat, k: nat): (s: set<nat>)
    requires 2 <= version <= 40 && 1 <= k < AlignCount(version)
    ensures forall c :: c in s <==> Abs(c - AlignAt(version, k)) <= 2
    ensures forall c :: c in s ==> 16 <= c <= SizeOf(version) - 5
    ensures |s| == 5
  {
    hide Span, AlignStep;
    AlignmentOrder(version, 0, k);
    SpanSize(AlignAt(version, k) - 2, AlignAt(version, k) + 3);
    Span(AlignAt(version, k) - 2, AlignAt(version, k) + 3)
  }

  /** The coordinates within 2 of the alignment positions 1, ..., hi - 1. */
  ghost function NearSet(version: nat, hi: nat): (s: set<nat>)
    requires 2 <= version <= 40 && 1 <= hi <= AlignCount(version)
    ensures forall c :: c in s ==> 16 <= c <= SizeOf(version) - 5
  {
    if hi == 1 then {} else NearSet(version, hi - 1) + Around(version, hi - 1)
  }

  lemma {:induction false} NearSetIs(version: nat, hi: nat, c: nat)
    requires 2 <= version <= 40 && 1 <= hi <= AlignCount(version)
    ensures c in NearSet(version, hi) <==> exists k :: 1 <= k < hi && c in Around(version, k)
  {
    hide Around;
    if hi > 1 { NearSetIs(version, hi - 1, c); }
  }

  lemma {:induction false} NearSetSize(version: nat, hi: nat)
    requires 2 <= version <= 40 && 1 <= hi <= AlignCount(version)
    ensures |NearSet(version, hi)| == 5 * (hi - 1)
  {
    hide Around, AlignAt;
    if hi > 1 {
      NearSetSize(version, hi - 1);
      var before := NearSet(version, hi - 1);
      forall c | c in before
        ensures c !in Around(version, hi - 1)
      {
        NearSetIs(version, hi - 1, c);
        var k :| 1 <= k < hi - 1 && c in Around(version, k);
        AlignmentOrder(version, k, hi - 1);
      }
      DisjointSize(NearSet(version, hi - 1), Around(version, hi - 1));
    }
  }

  /** Only the last position comes within 16 modules of the far edge. */
  lemma InnerBound(version: nat, c: nat)
    requires 2 <= version <= 40
    requires c in NearSet(version, AlignCount(version) - 1)
    ensures c < SizeOf(version) - 16
  {
    hide Around, AlignAt, NearSet, AlignCount;
    CountBound(version);
    var n := AlignCount(version);
    NearSetIs(version, n - 1, c);
    var k :| 1 <= k < n - 1 && c in Around(version, k);
    AlignmentOrder(version, k, n - 1);
  }

  /** The coordinates near position 0, without the timing pattern. */
  const BesideTiming: set<nat> := {4, 5, 7, 8}

  /** The cells of the alignment patterns off the timing patterns: patterns on neither, on the
      vertical and on the horizontal timing pattern. */
  ghost function AlignmentCells(version: nat): set<Pos>
    requires 2 <= version <= 40
  {
    var all, inner := NearSet(version, AlignCount(version)), NearSet(version, AlignCount(version) - 1);
    Product(all, all) + Product(BesideTiming, inner) + Product(inner, BesideTiming)
  }

  lemma AlignmentCellsAt(version: nat, p: Pos)
    requires 2 <= version <= 40
    ensures p in AlignmentCells(version) <==>
      || (p.x in NearSet(version, AlignCount(version)) && p.y in NearSet(version, AlignCount(version)))
      || (p.x in BesideTiming && p.y in NearSet(version, AlignCount(version) - 1))
      || (p.x in NearSet(version, AlignCount(version) - 1) && p.y in BesideTiming)
  {
    hide Product, NearSet;
  }

  lemma CellsAreNear(version: nat, p: Pos)
    requires 2 <= version <= 40 && p in AlignmentCells(version)
    ensures NearAlignment(version, p)
  {
    hide AlignAt, NearSet, AlignmentCells, Around, AlignCount;
    var n := AlignCount(version);
    assert n >= 2 by { CountBound(version); }
    FirstPosition(version);
    AlignmentCellsAt(version, p);
    NearSetIs(version, n, p.x); NearSetIs(version, n, p.y);
    NearSetIs(version, n - 1, p.x); NearSetIs(version, n - 1, p.y);
    if p.x in NearSet(version, n) && p.y in NearSet(version, n) {
      var i :| 1 <= i < n && p.x in Around(version, i);
      var j :| 1 <= j < n && p.y in Around(version, j);
      assert Covers(version, i, j, p);
    } else if p.x in BesideTiming && p.y in NearSet(version, n - 1) {
      var j :| 1 <= j < n - 1 && p.y in Around(version, j);
      assert Covers(version, 0, j, p);
    } else {
      var i :| 1 <= i < n - 1 && p.x in Around(version, i);
      assert Covers(version, i, 0, p);
    }
  }

  lemma CountBound(version: nat)
    requires 2 <= version <= 40
    ensures 2 <= AlignCount(version) <= 7
  {
  }

  lemma FirstPosition(version: nat)
    requires version >= 2
    ensures AlignAt(version, 0) == 6
  {
  }

  lemma NearAreCells(version: nat, p: Pos)
    requires 2 <= version <= 40 && p.x != 6 && p.y != 6 && NearAlignment(version, p)
    ensures p in AlignmentCells(version)
  {
    hide AlignAt, NearSet, AlignmentCells, Around, AlignCount;
    var n := AlignCount(version);
    assert n >= 2 by { CountBound(version); }
    FirstPosition(version);
    AlignmentCellsAt(version, p);
    var i: nat, j: nat :| Covers(version, i, j, p);
    NearSetIs(version, n, p.x); NearSetIs(version, n, p.y);
    NearSetIs(version, n - 1, p.x); NearSetIs(version, n - 1, p.y);
    assert Abs(p.x - AlignAt(version, i)) <= 2 && Abs(p.y - AlignAt(version, j)) <= 2;
    if i >= 1 { assert p.x in Around(version, i); }
    if j >= 1 { assert p.y in Around(version, j); }
  }

  lemma AlignmentCellsSize(version: nat)
    requires 2 <= version <= 40
    ensures var n := AlignCount(version); |AlignmentCells(version)| == (25 * n - 10) * n - 55
  {
    hide *;
    CountBound(version);
    var n := AlignCount(version);
    var all, inner := NearSet(version, n), NearSet(version, n - 1);
    NearSetSize(version, n); NearSetSize(version, n - 1);
    SizeFormula(|all|, |inner|, n);
    ThreeProducts(all, inner);
    AlignmentCellsUnfold(version);
  }

  lemma AlignmentCellsUnfold(version: nat)
    requires 2 <= version <= 40
    ensures 2 <= AlignCount(version)
    ensures var all, inner := NearSet(version, AlignCount(version)), NearSet(version, AlignCount(version) - 1);
            AlignmentCells(version) == Product(all, all) + Product(BesideTiming, inner) + Product(inner, BesideTiming)
  {
  }

  lemma ThreeProducts(all: set<nat>, inner: set<nat>)
    requires forall c :: c in all || c in inner ==> 16 <= c
    ensures |Product(all, all) + Product(BesideTiming, inner) + Product(inner, BesideTiming)|
         == |all| * |all| + 4 * |inner| + |inner| * 4
  {
    hide Product;
    var a, b, c := Product(all, all), Product(BesideTiming, inner), Product(inner, BesideTiming);
    ProductSize(all, all); ProductSize(BesideTiming, inner); ProductSize(inner, BesideTiming);
    DisjointSize(a, b); DisjointSize(a + b, c);
    assert |BesideTiming| == 4;
  }

  lemma SizeFormula(all: nat, inner: nat, n: nat)
    requires n >= 2 && all == 5 * (n - 1) && inner == 5 * (n - 2)
    ensures all * all + 4 * inner + inner * 4 == (25 * n - 10) * n - 55
  {
    assert all * all == 25 * (n * n) - 50 * n + 25;
    assert (25 * n - 10) * n == 25 * (n * n) - 10 * n;
  }

  // ----- all function modules

  /** Finder patterns with their separators and the format modules beside them. */
  ghost function Corners(n: nat): (s: set<Pos>)
    requires n >= 21
  {
    Rect(0, 0, 9, 9) + Rect(n - 8, 0, 8, 9) + Rect(0, n - 8, 9, 8)
  }

  /** The timing patterns between the corners. */
  ghost function Timings(n: nat): set<Pos>
    requires n >= 21
  {
    Rect(9, 6, n - 17, 1) + Rect(6, 9, 1, n - 17)
  }

  ghost function VersionBlocks(version: nat): set<Pos>
    requires version >= 1
  {
    if version < 7 then {} else Rect(SizeOf(version) - 11, 0, 3, 6) + Rect(0, SizeOf(version) - 11, 6, 3)
  }

  ghost function FunctionCells(version: nat): set<Pos>
    requires IsVersion(version)
  {
    var n := SizeOf(version);
    var base := Corners(n) + Timings(n) + VersionBlocks(version);
    if version == 1 then base else base + AlignmentCells(version)
  }

  lemma FunctionCellsAre(version: nat, p: Pos)
    requires IsVersion(version) && Inside(p, SizeOf(version))
    ensures p in FunctionCells(version) <==> IsFunctionModule(version, p)
  {
    hide Rect, AlignmentCells, NearAlignment;
    var n := SizeOf(version);
    if version >= 2 {
      if p in AlignmentCells(version) { CellsAreNear(version, p); }
      if NearAlignment(version, p) && p.x != 6 && p.y != 6 { NearAreCells(version, p); }
    } else {
      assert !NearAlignment(version, p) by { NoneNear(version, p); }
    }
  }

  lemma NoneNear(version: nat, p: Pos)
    requires version <= 1
    ensures !NearAlignment(version, p)
  {
  }

  lemma CornersSize(n: nat)
    requires n >= 21
    ensures |Corners(n)| == 225
  {
    hide Rect;
    RectSize(0, 0, 9, 9); RectSize(n - 8, 0, 8, 9); RectSize(0, n - 8, 9, 8);
    DisjointSize(Rect(0, 0, 9, 9), Rect(n - 8, 0, 8, 9));
    DisjointSize(Rect(0, 0, 9, 9) + Rect(n - 8, 0, 8, 9), Rect(0, n - 8, 9, 8));
  }

  lemma TimingsSize(n: nat)
    requires n >= 21
    ensures |Timings(n)| == 2 * (n - 17)
  {
    hide Rect;
    RectSize(9, 6, n - 17, 1); RectSize(6, 9, 1, n - 17);
    DisjointSize(Rect(9, 6, n - 17, 1), Rect(6, 9, 1, n - 17));
  }

  lemma VersionBlocksSize(version: nat)
    requires version >= 1
    ensures |VersionBlocks(version)| == if version < 7 then 0 else 36
  {
    hide Rect;
    if version >= 7 {
      var n := SizeOf(version);
      RectSize(n - 11, 0, 3, 6); RectSize(0, n - 11, 6, 3);
      DisjointSize(Rect(n - 11, 0, 3, 6), Rect(0, n - 11, 6, 3));
    }
  }

  lemma BaseSize(version: nat)
    requires IsVersion(version)
    ensures var n := SizeOf(version);
            |Corners(n) + Timings(n) + VersionBlocks(version)| == 225 + 2 * (n - 17) + if version < 7 then 0 else 36
  {
    hide Rect;
    var n := SizeOf(version);
    var c, t, v := Corners(n), Timings(n), VersionBlocks(version);
    CornersSize(n); TimingsSize(n); VersionBlocksSize(version);
    DisjointSize(c, t);
    DisjointSize(c + t, v);
  }

  lemma RawFormula(version: nat)
    requires IsVersion(version)
    ensures var n, k := SizeOf(version), version / 7 + 2;
            n * n - NumRawDataModules(version) ==
            225 + 2 * (n - 17) + (if version < 7 then 0 else 36) + if version < 2 then 0 else (25 * k - 10) * k - 55
  {
    var n := SizeOf(version);
    assert n * n == 16 * (version * version) + 136 * version + 289;
    assert (16 * version + 128) * version == 16 * (version * version) + 128 * version;
  }

  lemma FunctionCellsSize(version: nat)
    requires IsVersion(version)
    ensures |FunctionCells(version)| == SizeOf(version) * SizeOf(version) - NumRawDataModules(version)
  {
    hide Corners, Timings, VersionBlocks, AlignmentCells, NumRawDataModules;
    BaseSize(version);
    RawFormula(version);
    if version >= 2 {
      var n := SizeOf(version);
      var base, cells := Corners(n) + Timings(n) + VersionBlocks(version), AlignmentCells(version);
      AlignmentCellsSize(version);
      forall p | p in cells
        ensures p !in base
      {
        AlignmentApart(version, p);
      }
      DisjointSize(cells, base);
      assert base + cells == cells + base;
    }
  }

  lemma AlignmentApart(version: nat, p: Pos)
    requires 2 <= version <= 40 && p in AlignmentCells(version)
    ensures p !in Corners(SizeOf(version)) && p !in Timings(SizeOf(version)) && p !in VersionBlocks(version)
  {
    hide Rect, AlignmentCells, NearSet;
    AlignmentCellsAt(version, p);
    var n := AlignCount(version);
    if p.x in NearSet(version, n - 1) { InnerBound(version, p.x); }
    if p.y in NearSet(version, n - 1) { InnerBound(version, p.y); }
  }

  /** The function patterns of every version leave exactly the advertised number of modules free. */
  lemma FreeModules(version: nat)
    requires IsVersion(version)
    ensures |FreeSet(FunctionGrid(version), SizeOf(version))| == NumRawDataModules(version)
  {
    hide FunctionGrid, FunctionCells, NumRawDataModules, IsFunctionModule;
    var n := SizeOf(version);
    var free, fn := FreeSet(FunctionGrid(version), n), FunctionCells(version);
    FunctionCellsSize(version);
    RectSize(0, 0, n, n);
    forall p: Pos
      ensures p in free + fn <==> p in Rect(0, 0, n, n)
      ensures p in free ==> p !in fn
    {
      if Inside(p, n) {
        FunctionGridAt(version, p); FunctionCellsAre(version, p);
      } else if p in fn {
        FunctionCellsInside(version, p);
      }
    }
    assert free + fn == Rect(0, 0, n, n);
    DisjointSize(free, fn);
  }

  lemma FunctionCellsInside(version: nat, p: Pos)
    requires IsVersion(version) && p in FunctionCells(version)
    ensures Inside(p, SizeOf(version))
  {
    hide Rect, AlignmentCells, NearSet;
    if version >= 2 { AlignmentCellsAt(version, p); }
  }
}
