/** Square grids of modules and the zigzag order in which codewords are placed. */
module Zigzag {

  type Grid = seq<seq<bool>>

  /** Column x and row y. */
  datatype Pos = Pos(x: nat, y: nat)

  predicate Square(g: Grid, n: nat) { |g| == n && forall y :: 0 <= y < n ==> |g[y]| == n }

  predicate Inside(p: Pos, n: nat) { p.x < n && p.y < n }

  predicate AllInside(s: seq<Pos>, n: nat) { forall i :: 0 <= i < |s| ==> Inside(s[i], n) }

  function Get(g: Grid, n: nat, p: Pos): bool
    requires Square(g, n) && Inside(p, n)
  {
    g[p.y][p.x]
  }

  function Set(g: Grid, n: nat, p: Pos, v: bool): (r: Grid)
    requires Square(g, n) && Inside(p, n)
    ensures Square(r, n)
  {
    g[p.y := g[p.y][p.x := v]]
  }

  lemma SetGet(g: Grid, n: nat, p: Pos, v: bool, q: Pos)
    requires Square(g, n) && Inside(p, n) && Inside(q, n)
    ensures Get(Set(g, n, p, v), n, q) == if p == q then v else Get(g, n, q)
  {
  }

  /** The positions of a rectangle of w columns and h rows. */
  ghost function Cells(w: nat, h: nat): (s: set<Pos>)
    ensures forall p :: p in s <==> p.x < w && p.y < h
  {
    set x, y | 0 <= x < w && 0 <= y < h :: Pos(x, y)
  }

  ghost predicate Distinct(s: seq<Pos>) { forall i, j :: 0 <= i < j < |s| ==> s[i] != s[j] }

  // ----- the order

  /** Step i of the scan of the two columns right and right - 1. */
  function PairStep(size: nat, right: nat, i: nat): Pos
    requires right >= 1 && i < 2 * size
  {
    var upward := (right + 1) / 2 % 2 == 0;
    Pos(right - i % 2, if upward then size - 1 - i / 2 else i / 2)
  }

  function ColumnPair(size: nat, right: nat): (s: seq<Pos>)
    requires right >= 1
    ensures |s| == 2 * size
  {
    seq(2 * size, i requires 0 <= i < 2 * size => PairStep(size, right, i))
  }

  /** The scan from the column pair at `right` to the left edge; column 6 is skipped. */
  function Scan(size: nat, right: int): seq<Pos>
    decreases right
  {
    if right < 1 then []
    else
      var r := if right == 6 then 5 else right;
      ColumnPair(size, r) + Scan(size, r - 2)
  }

  lemma ColumnPairCovers(size: nat, right: nat)
    requires right >= 1
    ensures Distinct(ColumnPair(size, right))
    ensures forall p :: p in ColumnPair(size, right) <==> right - 1 <= p.x <= right && p.y < size
  {
    var s := ColumnPair(size, right);
    var upward := (right + 1) / 2 % 2 == 0;
    forall p: Pos
      ensures p in s <==> right - 1 <= p.x <= right && p.y < size
    {
      if right - 1 <= p.x <= right && p.y < size {
        var i := 2 * (if upward then size - 1 - p.y else p.y) + (right - p.x);
        assert s[i] == p;
      }
    }
  }

  /** The columns a scan starting at `right` can meet. */
  predicate ScanStart(right: int) {
    right == -1 || (right >= 6 && right % 2 == 0) || (1 <= right <= 5 && right % 2 == 1)
  }

  /** A scan visits every module of its columns except column 6, each exactly once. */
  lemma {:induction false} ScanCovers(size: nat, right: int)
    requires ScanStart(right)
    ensures Distinct(Scan(size, right))
    ensures forall p :: p in Scan(size, right) <==> p.x <= right && p.x != 6 && p.y < size
    decreases right
  {
    hide ColumnPair;
    if right >= 1 {
      var r := if right == 6 then 5 else right;
      ColumnPairCovers(size, r);
      ScanCovers(size, r - 2);
      DistinctConcat(ColumnPair(size, r), Scan(size, r - 2));
    }
  }

  lemma DistinctConcat(a: seq<Pos>, b: seq<Pos>)
    requires Distinct(a) && Distinct(b) && forall p :: p in a ==> p !in b
    ensures Distinct(a + b)
  {
    var s := a + b;
    forall i, j | 0 <= i < j < |s|
      ensures s[i] != s[j]
    {
      if i < |a| <= j { assert s[i] in a && s[j] in b; }
    }
  }

  /** The scan of a whole symbol: every module outside column 6, exactly once. */
  lemma ScanIsPermutation(size: nat, p: Pos)
    requires size >= 7 && size % 2 == 1
    ensures multiset(Scan(size, size - 1))[p] == if Inside(p, size) && p.x != 6 then 1 else 0
  {
    hide Scan;
    var s := Scan(size, size - 1);
    ScanCovers(size, size - 1);
    DistinctMultiset(s, p);
  }

  lemma {:induction false} DistinctMultiset(s: seq<Pos>, p: Pos)
    requires Distinct(s)
    ensures multiset(s)[p] == if p in s then 1 else 0
  {
    if s != [] {
      var n := |s| - 1;
      DistinctMultiset(s[..n], p);
      assert s == s[..n] + [s[n]];
    }
  }

  // ----- the free modules

  /** The modules of a scan that are not function modules, in order. */
  function Free(scan: seq<Pos>, fn: Grid, n: nat): seq<Pos>
    requires Square(fn, n) && AllInside(scan, n)
  {
    if scan == [] then []
    else
      var last := scan[|scan| - 1];
      Free(scan[..|scan| - 1], fn, n) + if Get(fn, n, last) then [] else [last]
  }

  lemma {:induction false} FreeIsFiltered(scan: seq<Pos>, fn: Grid, n: nat)
    requires Square(fn, n) && AllInside(scan, n)
    requires Distinct(scan)
    ensures Distinct(Free(scan, fn, n))
    ensures forall p :: p in Free(scan, fn, n) <==> p in scan && !Get(fn, n, p)
  {
    if scan != [] {
      var m := |scan| - 1;
      FreeIsFiltered(scan[..m], fn, n);
      assert scan == scan[..m] + [scan[m]];
      assert scan[m] !in scan[..m];
      DistinctConcat(Free(scan[..m], fn, n), if Get(fn, n, scan[m]) then [] else [scan[m]]);
    }
  }

  lemma {:induction false} FreeLength(scan: seq<Pos>, fn: Grid, n: nat)
    requires Square(fn, n) && AllInside(scan, n)
    ensures |Free(scan, fn, n)| <= |scan|
    ensures AllInside(Free(scan, fn, n), n)
  {
    if scan != [] { FreeLength(scan[..|scan| - 1], fn, n); }
  }

  /** One more module in the scan: it is skipped, or it is the next free one. */
  lemma {:induction false} FreeSnoc(scan: seq<Pos>, p: Pos, fn: Grid, n: nat)
    requires Square(fn, n) && AllInside(scan, n) && Inside(p, n)
    ensures AllInside(scan + [p], n)
    ensures Free(scan + [p], fn, n) == if Get(fn, n, p) then Free(scan, fn, n) else Free(scan, fn, n) + [p]
  {
    assert (scan + [p])[..|scan|] == scan;
  }

  /** All modules that are not function modules. */
  ghost function FreeSet(fn: Grid, n: nat): set<Pos>
    requires Square(fn, n)
  {
    set p | p in Cells(n, n) && !fn[p.y][p.x]
  }

  ghost predicate Column6Marked(fn: Grid, n: nat)
    requires Square(fn, n)
  {
    n >= 7 && forall y :: 0 <= y < n ==> fn[y][6]
  }

  /** The free modules met by the scan are all the free modules of the symbol. */
  lemma FreeCount(fn: Grid, n: nat)
    requires Square(fn, n) && n % 2 == 1 && Column6Marked(fn, n)
    ensures AllInside(Scan(n, n - 1), n)
    ensures |Free(Scan(n, n - 1), fn, n)| == |FreeSet(fn, n)|
  {
    hide Scan, Free;
    var scan := Scan(n, n - 1);
    ScanCovers(n, n - 1);
    assert forall i :: 0 <= i < |scan| ==> scan[i] in scan;
    FreeIsFiltered(scan, fn, n);
    var free := Free(scan, fn, n);
    assert FreeSet(fn, n) == set p | p in free by {
      forall p: Pos
        ensures p in FreeSet(fn, n) <==> p in free
      {
      }
    }
    DistinctCardinality(free);
  }

  lemma {:induction false} DistinctCardinality(s: seq<Pos>)
    requires Distinct(s)
    ensures |set p | p in s| == |s|
  {
    if s != [] {
      var n := |s| - 1;
      DistinctCardinality(s[..n]);
      assert s[n] !in s[..n];
      assert (set p | p in s) == (set p | p in s[..n]) + {s[n]};
    }
  }

  // ----- placing and reading bits

  /** The grid after writing the bits to the positions, as far as both go. */
  function Placed(g: Grid, n: nat, free: seq<Pos>, bits: seq<bool>): (r: Grid)
    requires Square(g, n) && AllInside(free, n)
    ensures Square(r, n)
  {
    if free == [] then g
    else
      var m := |free| - 1;
      var before := Placed(g, n, free[..m], bits);
      if m < |bits| then Set(before, n, free[m], bits[m]) else before
  }

  lemma {:induction false} PlacedSnoc(g: Grid, n: nat, free: seq<Pos>, p: Pos, bits: seq<bool>)
    requires Square(g, n) && AllInside(free, n) && Inside(p, n)
    ensures Placed(g, n, free + [p], bits) ==
      var before := Placed(g, n, free, bits); if |free| < |bits| then Set(before, n, p, bits[|free|]) else before
  {
    assert (free + [p])[..|free|] == free;
  }

  /** Every free module up to the number of bits holds its bit; every other module is unchanged. */
  lemma {:induction false} PlacedAt(g: Grid, n: nat, free: seq<Pos>, bits: seq<bool>, p: Pos)
    requires Square(g, n) && AllInside(free, n)
    requires Distinct(free) && Inside(p, n)
    ensures (forall k :: 0 <= k < |free| && k < |bits| ==> free[k] != p) ==>
      Get(Placed(g, n, free, bits), n, p) == Get(g, n, p)
    ensures forall k :: 0 <= k < |free| && k < |bits| && free[k] == p ==> Get(Placed(g, n, free, bits), n, p) == bits[k]
  {
    hide Get, Set;
    if free != [] {
      var m := |free| - 1;
      PlacedAt(g, n, free[..m], bits, p);
      if m < |bits| { SetGet(Placed(g, n, free[..m], bits), n, free[m], bits[m], p); }
    }
  }

  /** The first k bits read from the free modules in zigzag order. */
  function ReadBits(g: Grid, n: nat, free: seq<Pos>, k: nat): (bits: seq<bool>)
    requires Square(g, n) && k <= |free| && AllInside(free, n)
    ensures |bits| == k
  {
    seq(k, i requires 0 <= i < k => Get(g, n, free[i]))
  }

  /** Reading in the order of writing returns the bits. */
  lemma PlacedReadBack(g: Grid, n: nat, free: seq<Pos>, bits: seq<bool>)
    requires Square(g, n) && AllInside(free, n)
    requires Distinct(free) && |bits| <= |free|
    ensures ReadBits(Placed(g, n, free, bits), n, free, |bits|) == bits
  {
    hide Placed, Get;
    forall i | 0 <= i < |bits|
      ensures Get(Placed(g, n, free, bits), n, free[i]) == bits[i]
    {
      PlacedAt(g, n, free, bits, free[i]);
    }
  }
}
