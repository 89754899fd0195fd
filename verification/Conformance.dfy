/** The rules by which the encoder builds symbols are those of the standard: function modules, the
    order of placement, masks, format and version information, and the order of codewords. */
module Conformance {
  import opened Standard
  import opened StandardTables
  import opened Versions
  import opened Zigzag
  import opened FunctionPatterns
  import opened Capacity
  import opened MaskChoice

  // ----- function modules

  function PosOf(c: Cell): Pos { Pos(c.j, c.i) }

  /** A module is in an alignment pattern of the encoder exactly when it is in one of the standard. */
  lemma AlignmentAgrees(version: nat, c: Cell)
    requires IsVersion(version)
    ensures InAlignmentPattern(version, c.i, c.j) <==> NearAlignment(version, PosOf(c))
  {
    hide Centres, AlignAt, AlignCount;
    if version == 1 {
      NoCentres();
    } else {
      if InAlignmentPattern(version, c.i, c.j) {
        var a: nat, b: nat :| Centre(version, a, b) && a - 2 <= c.i <= a + 2 && b - 2 <= c.j <= b + 2;
        CentreCovers(version, a, b, c);
      }
      if NearAlignment(version, PosOf(c)) {
        var i: nat, j: nat :| Covers(version, i, j, PosOf(c));
        CoversCentre(version, i, j, c);
      }
    }
  }

  lemma NoCentres()
    ensures Centres(1) == [] && forall p :: !NearAlignment(1, p)
  {
  }

  /** The first and the last position, and no other, are those of finder patterns. */
  lemma EndCentres(version: nat, k: nat)
    requires 2 <= version <= 40 && k < AlignCount(version)
    ensures 2 <= AlignCount(version) == |Centres(version)| && Centres(version)[k] == AlignAt(version, k)
    ensures 6 <= AlignAt(version, k) <= SizeOf(version) - 7
    ensures AlignAt(version, k) == 6 <==> k == 0
    ensures AlignAt(version, k) == SizeOf(version) - 7 <==> k == AlignCount(version) - 1
  {
    hide Centres, AlignAt, AlignCount, AlignStep;
    var last := AlignCount(version) - 1;
    CountBound(version); FirstPosition(version); AlignmentSpacing(version);
    CentreIs(version, k);
    if k > 0 { AlignmentOrder(version, 0, k); }
    if k < last { AlignmentOrder(version, k, last); }
  }

  lemma CentreCovers(version: nat, a: nat, b: nat, c: Cell)
    requires 2 <= version <= 40 && Centre(version, a, b) && a - 2 <= c.i <= a + 2 && b - 2 <= c.j <= b + 2
    ensures NearAlignment(version, PosOf(c))
  {
    hide Centres, AlignAt, AlignCount, NearAlignment;
    CountBound(version); CentreIs(version, 0);
    var j: nat :| j < |Centres(version)| && Centres(version)[j] == a;
    var i: nat :| i < |Centres(version)| && Centres(version)[i] == b;
    EndCentres(version, i); EndCentres(version, j);
    assert Covers(version, i, j, PosOf(c));
    NearBy(version, i, j, PosOf(c));
  }

  lemma NearBy(version: nat, i: nat, j: nat, p: Pos)
    requires version >= 2 && Covers(version, i, j, p)
    ensures NearAlignment(version, p)
  {
  }

  lemma CoversCentre(version: nat, i: nat, j: nat, c: Cell)
    requires 2 <= version <= 40 && Covers(version, i, j, PosOf(c))
    ensures InAlignmentPattern(version, c.i, c.j)
  {
    hide Centres, AlignAt, AlignCount;
    EndCentres(version, i); EndCentres(version, j);
    var a, b := Centres(version)[j], Centres(version)[i];
    assert Centre(version, a, b);
  }

  /** The function modules are those of the standard. */
  lemma FunctionCellsAgree(version: nat, c: Cell)
    requires IsVersion(version) && c.i < SizeOf(version) && c.j < SizeOf(version)
    ensures FunctionCell(version, c) <==> IsFunctionModule(version, PosOf(c))
  {
    hide InAlignmentPattern, NearAlignment;
    AlignmentAgrees(version, c);
  }

  // ----- masks

  /** The masks invert what the conditions of the standard select. */
  lemma MasksAgree(msk: nat, i: nat, j: nat)
    requires msk < 8
    ensures Inverts(msk, j, i) <==> MaskInverts(msk, i, j)
  {
    if msk < 5 {
      SumMasks(msk, i, j);
    } else {
      Products(i, j);
      ProductMasks(msk, i, j, i * j);
    }
  }

  lemma SumMasks(msk: nat, i: nat, j: nat)
    requires msk < 5
    ensures Inverts(msk, j, i) <==> MaskInverts(msk, i, j)
  {
    Halves(i, j); Thirds(i, j); Halves(i / 2, j / 3);
  }

  lemma ProductMasks(msk: nat, i: nat, j: nat, p: nat)
    requires 5 <= msk < 8 && p == i * j == j * i
    ensures Inverts(msk, j, i) <==> MaskInverts(msk, i, j)
  {
    Sixths(p); Halves(i + j, p % 3);
  }

  lemma Products(i: nat, j: nat)
    ensures i * j == j * i
  {
  }

  lemma Thirds(i: nat, j: nat)
    ensures (i % 3 + j % 3) % 3 == (i + j) % 3
  {
    assert i == 3 * (i / 3) + i % 3 && j == 3 * (j / 3) + j % 3;
  }

  lemma Halves(a: nat, b: nat)
    ensures (a + b) % 2 == 0 <==> a % 2 == b % 2
    ensures (a + b) % 2 == (a % 2 + b) % 2
  {
  }

  lemma Sixths(p: nat)
    ensures p % 2 + p % 3 == 0 <==> p % 6 == 0
    ensures (p % 2 + p % 3) % 2 == 0 <==> p % 6 < 3
  {
    Remainders(p, p / 6, p % 6);
  }

  lemma Remainders(p: nat, q: nat, r: nat)
    requires p == 6 * q + r
    ensures p % 2 == r % 2 && p % 3 == r % 3
  {
    assert p == 2 * (3 * q) + r;
    assert p == 3 * (2 * q) + r;
  }

  // ----- the order of placement

  /** Where the scan of the encoder meets pair t of the standard. */
  function StartOf(n: nat, t: nat): int { if n - 1 - 2 * t >= 6 then n - 1 - 2 * t else n - 2 - 2 * t }

  lemma PairAgrees(n: nat, t: nat, m: nat)
    requires n % 4 == 1 && 2 * t + 3 <= n && m < 2 * n && n >= 21
    ensures PairStep(n, PairColumn(n, t), m) == PosOf(Pair(n, t)[m])
  {
    Direction((n - 1) / 4, t, PairColumn(n, t));
  }

  /** The encoder goes upwards, by column, exactly when the standard does, by number of the pair. */
  lemma Direction(q: nat, t: nat, right: nat)
    requires right == 4 * q - 2 * t || right == 4 * q - 2 * t - 1
    ensures (right + 1) / 2 % 2 == 0 <==> t % 2 == 0
  {
    var half := 2 * q - t;
    assert (right + 1) / 2 == half;
    assert half + t == 2 * q;
  }

  /** The zigzag scan visits the modules in the order of the standard. */
  lemma {:induction false} OrderAgrees(n: nat, t: nat)
    requires n % 4 == 1 && n >= 21 && 2 * t + 1 <= n
    ensures |Scan(n, StartOf(n, t))| == |Order(n, t)|
    ensures forall m :: 0 <= m < |Order(n, t)| ==> Scan(n, StartOf(n, t))[m] == PosOf(Order(n, t)[m])
    decreases n - 2 * t
  {
    hide Pair, PairStep;
    if 2 * t + 3 <= n {
      OrderAgrees(n, t + 1);
      var r: int := PairColumn(n, t);
      assert Scan(n, StartOf(n, t)) == ColumnPair(n, r) + Scan(n, r - 2);
      assert StartOf(n, t + 1) == r - 2;
      forall m | 0 <= m < 2 * n
        ensures ColumnPair(n, r)[m] == PosOf(Pair(n, t)[m])
      {
        PairAgrees(n, t, m);
      }
    }
  }

  ghost predicate SameCells(free: seq<Pos>, cells: seq<Cell>) {
    |free| == |cells| && forall k :: 0 <= k < |cells| ==> free[k] == PosOf(cells[k])
  }

  /** The scan of a whole symbol. */
  lemma ScanIsOrder(n: nat)
    requires n % 4 == 1 && n >= 21
    ensures SameCells(Scan(n, n - 1), Order(n, 0))
  {
    hide Scan, Order;
    OrderAgrees(n, 0);
  }

  lemma {:induction false} FilterAgrees(version: nat, scan: seq<Pos>, cells: seq<Cell>)
    requires IsVersion(version) && AllInside(scan, SizeOf(version)) && SameCells(scan, cells)
    ensures SameCells(Free(scan, FunctionGrid(version), SizeOf(version)), DataCells(cells, version))
  {
    hide FunctionGrid, FunctionCell, Get, IsFunctionModule;
    if cells != [] {
      var m := |cells| - 1;
      FilterAgrees(version, scan[..m], cells[..m]);
      FunctionGridAt(version, scan[m]); FunctionCellsAgree(version, cells[m]);
    }
  }

  /** The free modules of a symbol in zigzag order are the data modules of the standard. */
  lemma DataCellsAgree(version: nat)
    requires IsVersion(version)
    ensures SameCells(FreeModulesOf(version), DataCells(Order(Side(version), 0), version))
  {
    hide Free, Order, Scan, DataCells, FunctionGrid;
    var n, fn := SizeOf(version), FunctionGrid(version);
    FunctionGridMarks(version);
    FreeCount(fn, n);
    ScanIsOrder(n);
    FilterAgrees(version, Scan(n, n - 1), Order(n, 0));
  }
}
