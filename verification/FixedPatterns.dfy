/** Finder, timing and alignment patterns of every finished symbol, module by module. */
module FixedPatterns {
  import opened BitBuffers
  import opened Capacity
  import opened Conformance
  import opened FunctionPatterns
  import opened Gf256
  import opened Interleaver
  import opened MaskChoice
  import opened QrCodes
  import opened Standard
  import opened StandardTables
  import opened Versions
  import opened Zigzag

  // ----- function modules keep the colour of their pattern

  /** Placing codewords, masking and drawing format bits change no other function module. */
  lemma FunctionModuleKept(version: nat, e: Ecc, data: seq<Byte>, msk: nat, p: Pos)
    requires IsVersion(version) && |data| == NumDataCodewords(version, e) && msk < 8
    requires Inside(p, SizeOf(version)) && IsFunctionModule(version, p) && !IsFormat(SizeOf(version), p)
    ensures Get(Symbol(version, e, data, msk), SizeOf(version), p)
         == Get(PatternGrid(version, FormatBits(e, 0)), SizeOf(version), p)
  {
    hide FormatBits, PatternGrid, Placed, Interleaved, NumDataCodewords, FormatColor, FunctionGrid, Unpack,
         FreeModulesOf, Inverts, IsFunctionModule;
    var n, free, bits := SizeOf(version), FreeModulesOf(version), FormatBits(e, 0);
    var stream := Unpack(Interleaved(LayoutOf(version, e), data));
    FunctionGridAt(version, p);
    FreeModulesAreFree(version, p);
    PlacedAt(PatternGrid(version, bits), n, free, stream, p);
  }

  /** The patterns below format and version information. */
  function BarePatterns(version: nat): (g: Grid)
    requires IsVersion(version)
    ensures Square(g, SizeOf(version))
  {
    var n := SizeOf(version);
    Alignments(Finders(Timing(Blank(n), n, false), n, FinderRings), version, AlignCount(version), 0, AlignmentRings)
  }

  lemma PatternIsDrawn(version: nat, bits: seq<bool>, p: Pos)
    requires IsVersion(version) && |bits| == 15 && Inside(p, SizeOf(version)) && !IsFormat(SizeOf(version), p)
    requires version >= 7 ==> VersionCell(SizeOf(version), p) < 0
    ensures Get(PatternGrid(version, bits), SizeOf(version), p) == Get(BarePatterns(version), SizeOf(version), p)
  {
    hide Alignments, Finders, Timing, FormatColor, VersionBits, IsFormat, VersionCell;
  }

  // ----- alignment patterns

  lemma StampAt(g: Grid, n: nat, cx: int, cy: int, r: nat, k: Rings, p: Pos)
    requires Square(g, n) && Inside(p, n)
    ensures Get(Stamp(g, n, cx, cy, r, k), n, p)
         == if Dist(p, cx, cy) <= r then RingColor(k, Dist(p, cx, cy)) else Get(g, n, p)
  {
    hide RingColor;
  }

  /** Alignment patterns do not overlap. */
  lemma OneAlignment(version: nat, a: nat, b: nat, i: nat, j: nat, p: Pos)
    requires 2 <= version <= 40 && Covers(version, a, b, p) && Covers(version, i, j, p)
    ensures a == i && b == j
  {
    hide AlignAt, AlignCount;
    if a < i { AlignmentOrder(version, a, i); } else if i < a { AlignmentOrder(version, i, a); }
    if b < j { AlignmentOrder(version, b, j); } else if j < b { AlignmentOrder(version, j, b); }
  }

  /** A module that an alignment pattern covers has the colour of that pattern. */
  lemma {:induction false} AlignmentColour(g: Grid, version: nat, i: nat, j: nat, a: nat, b: nat, p: Pos)
    requires 2 <= version <= 40 && Square(g, SizeOf(version)) && Inside(p, SizeOf(version))
    requires i <= AlignCount(version) && j <= AlignCount(version) && (i == AlignCount(version) ==> j == 0)
    requires Covers(version, a, b, p) && Earlier(a, b, i, j)
    ensures Get(Alignments(g, version, i, j, AlignmentRings), SizeOf(version), p)
         == RingColor(AlignmentRings, Dist(p, AlignAt(version, a), AlignAt(version, b)))
    decreases i, j
  {
    hide Stamp, AlignAt, Get, Dist, RingColor;
    if j > 0 {
      var before := Alignments(g, version, i, j - 1, AlignmentRings);
      StampAt(before, SizeOf(version), AlignAt(version, i), AlignAt(version, j - 1), 2, AlignmentRings, p);
      if Earlier(a, b, i, j - 1) {
        AlignmentColour(g, version, i, j - 1, a, b, p);
        if Covers(version, i, j - 1, p) { OneAlignment(version, a, b, i, j - 1, p); }
      }
    } else if i > 0 {
      AlignmentColour(g, version, i - 1, AlignCount(version), a, b, p);
    }
  }

  /** A module that no alignment pattern covers keeps its colour. */
  lemma {:induction false} AlignmentKeeps(g: Grid, version: nat, i: nat, j: nat, p: Pos)
    requires 2 <= version <= 40 && Square(g, SizeOf(version)) && Inside(p, SizeOf(version))
    requires i <= AlignCount(version) && j <= AlignCount(version) && (i == AlignCount(version) ==> j == 0)
    requires !NearAlignment(version, p)
    ensures Get(Alignments(g, version, i, j, AlignmentRings), SizeOf(version), p) == Get(g, SizeOf(version), p)
    decreases i, j
  {
    hide Stamp, AlignAt, Get, Dist, RingColor;
    if j > 0 {
      AlignmentKeeps(g, version, i, j - 1, p);
      var before := Alignments(g, version, i, j - 1, AlignmentRings);
      StampAt(before, SizeOf(version), AlignAt(version, i), AlignAt(version, j - 1), 2, AlignmentRings, p);
      assert !Covers(version, i, j - 1, p);
    } else if i > 0 {
      AlignmentKeeps(g, version, i - 1, AlignCount(version), p);
    }
  }

  // ----- modules outside format and version information

  /** Alignment patterns stay away from finder patterns, format and version information. */
  lemma AlignmentIsApart(version: nat, a: nat, b: nat, p: Pos)
    requires 2 <= version <= 40 && Covers(version, a, b, p)
    ensures var n := SizeOf(version);
            && 4 <= p.x <= n - 5 && 4 <= p.y <= n - 5
            && (p.x <= 15 ==> 16 <= p.y <= n - 17) && (p.y <= 15 ==> 16 <= p.x <= n - 17)
  {
    hide AlignAt, AlignCount;
    EndCentres(version, a); EndCentres(version, b);
    var last := AlignCount(version) - 1;
    if a > 0 { AlignmentOrder(version, 0, a); FarFromStart(version, a); }
    if b > 0 { AlignmentOrder(version, 0, b); FarFromStart(version, b); }
    if a < last { AlignmentOrder(version, a, last); }
    if b < last { AlignmentOrder(version, b, last); }
  }

  lemma FarFromStart(version: nat, k: nat)
    requires 2 <= version <= 40 && 1 <= k < AlignCount(version)
    ensures AlignAt(version, k) >= 18
  {
    FirstPosition(version);
    AlignmentOrder(version, 0, k);
  }

  /** Away from format and version information, a symbol shows the drawn patterns. */
  lemma SymbolShows(version: nat, e: Ecc, data: seq<Byte>, msk: nat, p: Pos)
    requires IsVersion(version) && |data| == NumDataCodewords(version, e) && msk < 8
    requires Inside(p, SizeOf(version)) && IsFunctionModule(version, p) && !IsFormat(SizeOf(version), p)
    requires version >= 7 ==> VersionCell(SizeOf(version), p) < 0
    ensures Get(Symbol(version, e, data, msk), SizeOf(version), p) == Get(BarePatterns(version), SizeOf(version), p)
  {
    hide Symbol, NumDataCodewords, BarePatterns, PatternGrid, FormatBits, IsFunctionModule, IsFormat, VersionCell;
    FunctionModuleKept(version, e, data, msk, p);
    PatternIsDrawn(version, FormatBits(e, 0), p);
  }

  /** Alignment patterns, in a finished symbol. */
  lemma AlignmentIsShown(version: nat, e: Ecc, data: seq<Byte>, msk: nat, a: nat, b: nat, i: nat, j: nat)
    requires IsVersion(version) && |data| == NumDataCodewords(version, e) && msk < 8
    requires 2 <= a <= SizeOf(version) - 3 && 2 <= b <= SizeOf(version) - 3 && i < 5 && j < 5
    requires Centre(version, a, b)
    ensures Get(Symbol(version, e, data, msk), SizeOf(version), Pos(b - 2 + j, a - 2 + i)) == AlignmentDark(i, j)
  {
    hide Symbol, NumDataCodewords, Alignments, AlignAt, AlignCount, IsFormat, VersionCell, Finders, Timing, Centres;
    var n, p := SizeOf(version), Pos(b - 2 + j, a - 2 + i);
    if version == 1 { NoCentres(); }
    CentreIndex(version, a); CentreIndex(version, b);
    var y: nat :| y < AlignCount(version) && AlignAt(version, y) == a;
    var x: nat :| x < AlignCount(version) && AlignAt(version, x) == b;
    EndCentres(version, x); EndCentres(version, y);
    assert Covers(version, x, y, p);
    AlignmentIsApart(version, x, y, p);
    OutsideFormat(version, p);
    SymbolShows(version, e, data, msk, p);
    AlignmentColour(Finders(Timing(Blank(n), n, false), n, FinderRings), version, AlignCount(version), 0, x, y, p);
    RingIsFrame(i, j, b, a);
  }

  lemma CentreIndex(version: nat, a: nat)
    requires 2 <= version <= 40 && a in Centres(version)
    ensures exists k: nat :: k < AlignCount(version) && AlignAt(version, k) == a
  {
    hide Centres, AlignAt, AlignCount;
    CountBound(version); CentreIs(version, 0);
    var k: nat :| k < |Centres(version)| && Centres(version)[k] == a;
    CentreIs(version, k);
  }

  lemma OutsideFormat(version: nat, p: Pos)
    requires IsVersion(version)
    requires var n := SizeOf(version);
             && 4 <= p.x <= n - 5 && 4 <= p.y <= n - 5
             && (p.x <= 15 ==> 16 <= p.y <= n - 17) && (p.y <= 15 ==> 16 <= p.x <= n - 17)
    ensures !IsFormat(SizeOf(version), p) && VersionCell(SizeOf(version), p) < 0
  {
  }

  /** The rings around a centre are a frame and a point. */
  lemma RingIsFrame(i: nat, j: nat, cx: nat, cy: nat)
    requires i < 5 && j < 5 && cx >= 2 && cy >= 2
    ensures RingColor(AlignmentRings, Dist(Pos(cx - 2 + j, cy - 2 + i), cx, cy)) == AlignmentDark(i, j)
  {
  }

  // ----- finder and timing patterns

  /** Finder patterns with their separators, and the timing patterns between them. */
  lemma FinderIsDrawn(version: nat, i: nat, j: nat)
    requires IsVersion(version) && i < 8 && j < 8
    ensures var g, n := BarePatterns(version), SizeOf(version);
            Get(g, n, Pos(j, i)) == Get(g, n, Pos(n - 1 - j, i)) == Get(g, n, Pos(j, n - 1 - i)) == FinderDark(i, j)
  {
    hide Timing, Stamp, Alignments, RingColor, Get, Dist;
    var n := SizeOf(version);
    CornerIsClear(version, Pos(j, i)); CornerIsClear(version, Pos(n - 1 - j, i));
    CornerIsClear(version, Pos(j, n - 1 - i));
    BelowAlignments(version, Pos(j, i)); BelowAlignments(version, Pos(n - 1 - j, i));
    BelowAlignments(version, Pos(j, n - 1 - i));
    var t := Timing(Blank(n), n, false);
    var s1 := Stamp(t, n, 3, 3, 4, FinderRings);
    var s2 := Stamp(s1, n, n - 4, 3, 4, FinderRings);
    FinderStamp(t, s1, s2, n, i, j);
  }

  lemma FinderStamp(t: Grid, s1: Grid, s2: Grid, n: nat, i: nat, j: nat)
    requires n >= 21 && Square(t, n) && i < 8 && j < 8
    requires s1 == Stamp(t, n, 3, 3, 4, FinderRings) && s2 == Stamp(s1, n, n - 4, 3, 4, FinderRings)
    ensures var g := Stamp(s2, n, 3, n - 4, 4, FinderRings);
            Get(g, n, Pos(j, i)) == Get(g, n, Pos(n - 1 - j, i)) == Get(g, n, Pos(j, n - 1 - i)) == FinderDark(i, j)
  {
    hide Stamp, Get;
    var a, b, c := Pos(j, i), Pos(n - 1 - j, i), Pos(j, n - 1 - i);
    StampAt(t, n, 3, 3, 4, FinderRings, a);
    StampAt(s1, n, n - 4, 3, 4, FinderRings, a); StampAt(s1, n, n - 4, 3, 4, FinderRings, b);
    StampAt(s2, n, 3, n - 4, 4, FinderRings, a); StampAt(s2, n, 3, n - 4, 4, FinderRings, b);
    StampAt(s2, n, 3, n - 4, 4, FinderRings, c);
  }

  /** Alignment patterns leave a module alone that is near two edges. */
  lemma BelowAlignments(version: nat, p: Pos)
    requires IsVersion(version) && Inside(p, SizeOf(version))
    requires !NearAlignment(version, p)
    ensures var n := SizeOf(version);
            Get(BarePatterns(version), n, p) == Get(Finders(Timing(Blank(n), n, false), n, FinderRings), n, p)
  {
    hide Timing, Finders, Alignments, Get, NearAlignment, AlignCount;
    var n := SizeOf(version);
    var g := Finders(Timing(Blank(n), n, false), n, FinderRings);
    if version >= 2 { AlignmentKeeps(g, version, AlignCount(version), 0, p); } else { NoAlignmentsAtAll(g); }
  }

  lemma NoAlignmentsAtAll(g: Grid)
    requires Square(g, SizeOf(1))
    ensures AlignCount(1) == 0 && Alignments(g, 1, 0, 0, AlignmentRings) == g
  {
  }

  lemma CornerIsClear(version: nat, p: Pos)
    requires IsVersion(version)
    requires var n := SizeOf(version); (p.x <= 7 && (p.y <= 7 || n - 8 <= p.y)) || (n - 8 <= p.x && p.y <= 7)
    ensures !NearAlignment(version, p)
  {
    hide Covers;
    if NearAlignment(version, p) {
      var a: nat, b: nat :| Covers(version, a, b, p);
      AlignmentIsApart(version, a, b, p);
      assert false;
    }
  }

  lemma EvenCentre(version: nat, k: nat)
    requires 2 <= version <= 40
    ensures AlignAt(version, k) % 2 == 0
  {
    hide AlignCount;
    CountBound(version);
    var half := if version == 32 then 13
                else (version * 4 + AlignCount(version) * 2 + 1) / (AlignCount(version) * 2 - 2);
    var m := AlignCount(version) - 1 - k;
    assert m * (half * 2) == 2 * (m * half);
  }

  /** Timing patterns between the finder patterns; alignment patterns on them have their colours. */
  lemma TimingIsDrawn(version: nat, k: nat)
    requires IsVersion(version) && 8 <= k < SizeOf(version) - 8
    ensures var g, n := BarePatterns(version), SizeOf(version);
            Get(g, n, Pos(k, 6)) == Get(g, n, Pos(6, k)) == (k % 2 == 0)
  {
    hide BarePatterns, Get;
    TimingModule(version, Pos(k, 6), k); TimingModule(version, Pos(6, k), k);
  }

  lemma TimingModule(version: nat, p: Pos, k: nat)
    requires IsVersion(version) && 8 <= k < SizeOf(version) - 8 && (p == Pos(k, 6) || p == Pos(6, k))
    ensures Get(BarePatterns(version), SizeOf(version), p) == (k % 2 == 0)
  {
    hide Timing, Finders, Alignments, AlignAt, AlignCount, Get, Covers;
    var n := SizeOf(version);
    var t := Timing(Blank(n), n, false);
    if NearAlignment(version, p) {
      var a: nat, b: nat :| Covers(version, a, b, p);
      CoveredTiming(version, a, b, p, k);
      AlignmentColour(Finders(t, n, FinderRings), version, AlignCount(version), 0, a, b, p);
    } else {
      BelowAlignments(version, p);
      TimingShows(n, p, k);
    }
  }

  lemma CoveredTiming(version: nat, a: nat, b: nat, p: Pos, k: nat)
    requires 2 <= version <= 40 && Covers(version, a, b, p) && (p == Pos(k, 6) || p == Pos(6, k))
    requires 8 <= k < SizeOf(version) - 8
    ensures Earlier(a, b, AlignCount(version), 0)
    ensures RingColor(AlignmentRings, Dist(p, AlignAt(version, a), AlignAt(version, b))) == (k % 2 == 0)
  {
    hide AlignAt, AlignCount;
    EvenCentre(version, a); EvenCentre(version, b);
    FirstPosition(version);
    if a > 0 { FarFromStart(version, a); }
    if b > 0 { FarFromStart(version, b); }
  }

  lemma TimingShows(n: nat, p: Pos, k: nat)
    requires n >= 21 && 8 <= k < n - 8 && (p == Pos(k, 6) || p == Pos(6, k))
    ensures Get(Finders(Timing(Blank(n), n, false), n, FinderRings), n, p) == (k % 2 == 0)
  {
    hide Stamp, RingColor;
    var t := Timing(Blank(n), n, false);
    var s1 := Stamp(t, n, 3, 3, 4, FinderRings);
    var s2 := Stamp(s1, n, n - 4, 3, 4, FinderRings);
    StampAt(t, n, 3, 3, 4, FinderRings, p);
    StampAt(s1, n, n - 4, 3, 4, FinderRings, p);
    StampAt(s2, n, 3, n - 4, 4, FinderRings, p);
  }

  // ----- all patterns

  /** Every finished symbol has the fixed patterns of the standard. */
  lemma PatternsAreDrawn(version: nat, e: Ecc, data: seq<Byte>, msk: nat)
    requires IsVersion(version) && |data| == NumDataCodewords(version, e) && msk < 8
    ensures PatternsDrawn(Symbol(version, e, data, msk), version)
  {
    hide Symbol, NumDataCodewords, BarePatterns, Centres, FinderDark, AlignmentDark;
    var g, n := Symbol(version, e, data, msk), SizeOf(version);
    forall i, j | 0 <= i < 8 && 0 <= j < 8
      ensures g[i][j] == FinderDark(i, j)
      ensures g[i][n - 1 - j] == FinderDark(i, j)
      ensures g[n - 1 - i][j] == FinderDark(i, j)
    {
      FinderIsDrawn(version, i, j);
      FinderIsShown(version, e, data, msk, Pos(j, i));
      FinderIsShown(version, e, data, msk, Pos(n - 1 - j, i));
      FinderIsShown(version, e, data, msk, Pos(j, n - 1 - i));
    }
    forall k | 8 <= k < n - 8
      ensures g[6][k] == (k % 2 == 0) && g[k][6] == (k % 2 == 0)
    {
      TimingIsDrawn(version, k);
      TimingIsShown(version, e, data, msk, Pos(k, 6)); TimingIsShown(version, e, data, msk, Pos(6, k));
    }
    forall a: nat, b: nat, i, j | Centre(version, a, b) && 0 <= i < 5 && 0 <= j < 5
      ensures g[a - 2 + i][b - 2 + j] == AlignmentDark(i, j)
    {
      AlignmentIsShown(version, e, data, msk, a, b, i, j);
      assert g[a - 2 + i][b - 2 + j] == Get(g, n, Pos(b - 2 + j, a - 2 + i));
    }
    DarkModule(version, e, data, msk);
  }

  lemma FinderIsShown(version: nat, e: Ecc, data: seq<Byte>, msk: nat, p: Pos)
    requires IsVersion(version) && |data| == NumDataCodewords(version, e) && msk < 8
    requires var n := SizeOf(version);
             && p.x < n && p.y < n
             && ((p.x <= 7 && (p.y <= 7 || n - 8 <= p.y)) || (n - 8 <= p.x && p.y <= 7))
    ensures Get(Symbol(version, e, data, msk), SizeOf(version), p) == Get(BarePatterns(version), SizeOf(version), p)
  {
    hide Symbol, NumDataCodewords, BarePatterns, NearAlignment;
    SymbolShows(version, e, data, msk, p);
  }

  lemma TimingIsShown(version: nat, e: Ecc, data: seq<Byte>, msk: nat, p: Pos)
    requires IsVersion(version) && |data| == NumDataCodewords(version, e) && msk < 8
    requires var n := SizeOf(version); (p.x == 6 && 8 < p.y + 1 <= n - 8) || (p.y == 6 && 8 < p.x + 1 <= n - 8)
    ensures Get(Symbol(version, e, data, msk), SizeOf(version), p) == Get(BarePatterns(version), SizeOf(version), p)
  {
    hide Symbol, NumDataCodewords, BarePatterns, NearAlignment;
    SymbolShows(version, e, data, msk, p);
  }

  lemma DarkModule(version: nat, e: Ecc, data: seq<Byte>, msk: nat)
    requires IsVersion(version) && |data| == NumDataCodewords(version, e) && msk < 8
    ensures Get(Symbol(version, e, data, msk), SizeOf(version), Pos(8, 4 * version + 9))
  {
    hide Masked, Unmasked, FormatBits, FunctionGrid, NumDataCodewords;
  }
}
