/** The function patterns of a symbol, as values: timing, finder and alignment patterns, format
    and version information; and the masks. */
module FunctionPatterns {
  import Bch
  import opened BitBuffers
  import opened Integers
  import opened Versions
  import opened Zigzag

  function SizeOf(version: nat): nat { version * 4 + 17 }

  /** The Chebyshev distance of a module from a centre. */
  function Dist(p: Pos, cx: int, cy: int): nat { Max(Abs(p.x - cx), Abs(p.y - cy)) }

  lemma GridEquality(a: Grid, b: Grid, n: nat)
    requires Square(a, n) && Square(b, n)
    requires forall p :: Inside(p, n) ==> Get(a, n, p) == Get(b, n, p)
    ensures a == b
  {
    forall y | 0 <= y < n
      ensures a[y] == b[y]
    {
      forall x | 0 <= x < n
        ensures a[y][x] == b[y][x]
      {
        assert Inside(Pos(x, y), n) && Get(a, n, Pos(x, y)) == Get(b, n, Pos(x, y));
      }
    }
  }

  // ----- concentric patterns

  datatype Rings = FinderRings | AlignmentRings | Marked

  function RingColor(k: Rings, d: nat): bool {
    match k
    case FinderRings => d != 2 && d != 4
    case AlignmentRings => d != 1
    case Marked => true
  }

  /** A grid with a concentric pattern of radius r around (cx, cy), clipped to the grid. */
  function Stamp(g: Grid, n: nat, cx: int, cy: int, r: nat, k: Rings): (s: Grid)
    requires Square(g, n)
    ensures Square(s, n)
  {
    seq(n, y requires 0 <= y < n =>
      seq(n, x requires 0 <= x < n =>
        if Dist(Pos(x, y), cx, cy) <= r then RingColor(k, Dist(Pos(x, y), cx, cy)) else g[y][x]))
  }

  /** Whether loops over dy and dx have passed a module at distance at most r from (cx, cy). */
  predicate Passed(p: Pos, cx: int, cy: int, r: nat, dx: int, dy: int) {
    Dist(p, cx, cy) <= r && (p.y < cy + dy || (p.y == cy + dy && p.x < cx + dx))
  }

  /** The part of the pattern that the loops have drawn. */
  ghost function StampUpTo(g: Grid, n: nat, cx: int, cy: int, r: nat, k: Rings, dx: int, dy: int): (s: Grid)
    requires Square(g, n)
    ensures Square(s, n)
  {
    seq(n, y requires 0 <= y < n =>
      seq(n, x requires 0 <= x < n =>
        if Passed(Pos(x, y), cx, cy, r, dx, dy) then RingColor(k, Dist(Pos(x, y), cx, cy)) else g[y][x]))
  }

  lemma StampStep(g: Grid, n: nat, cx: int, cy: int, r: nat, k: Rings, dx: int, dy: int)
    requires Square(g, n) && 0 - r <= dx <= r && 0 - r <= dy <= r
    ensures var s, x, y := StampUpTo(g, n, cx, cy, r, k, dx, dy), cx + dx, cy + dy;
            StampUpTo(g, n, cx, cy, r, k, dx + 1, dy) ==
            if 0 <= x < n && 0 <= y < n then Set(s, n, Pos(x, y), RingColor(k, Max(Abs(dx), Abs(dy)))) else s
  {
    hide RingColor;
    var s, t := StampUpTo(g, n, cx, cy, r, k, dx, dy), StampUpTo(g, n, cx, cy, r, k, dx + 1, dy);
    var x, y := cx + dx, cy + dy;
    if 0 <= x < n && 0 <= y < n {
      var u := Set(s, n, Pos(x, y), RingColor(k, Max(Abs(dx), Abs(dy))));
      forall p | Inside(p, n)
        ensures Get(t, n, p) == Get(u, n, p)
      {
        SetGet(s, n, Pos(x, y), RingColor(k, Max(Abs(dx), Abs(dy))), p);
      }
      GridEquality(t, u, n);
    } else {
      GridEquality(t, s, n);
    }
  }

  lemma StampEnds(g: Grid, n: nat, cx: int, cy: int, r: nat, k: Rings, dy: int)
    requires Square(g, n)
    ensures StampUpTo(g, n, cx, cy, r, k, 0 - r, 0 - r) == g
    ensures StampUpTo(g, n, cx, cy, r, k, r + 1, dy) == StampUpTo(g, n, cx, cy, r, k, 0 - r, dy + 1)
    ensures StampUpTo(g, n, cx, cy, r, k, 0 - r, r + 1) == Stamp(g, n, cx, cy, r, k)
  {
    hide RingColor;
    GridEquality(StampUpTo(g, n, cx, cy, r, k, 0 - r, 0 - r), g, n);
    GridEquality(StampUpTo(g, n, cx, cy, r, k, r + 1, dy), StampUpTo(g, n, cx, cy, r, k, 0 - r, dy + 1), n);
    GridEquality(StampUpTo(g, n, cx, cy, r, k, 0 - r, r + 1), Stamp(g, n, cx, cy, r, k), n);
  }

  /** A grid with the two timing patterns. */
  function Timing(g: Grid, n: nat, mark: bool): (s: Grid)
    requires Square(g, n)
    ensures Square(s, n)
  {
    TimingUpTo(g, n, mark, n)
  }

  /** The first i modules of both timing patterns are drawn. */
  function TimingUpTo(g: Grid, n: nat, mark: bool, i: nat): (s: Grid)
    requires Square(g, n)
    ensures Square(s, n)
  {
    seq(n, y requires 0 <= y < n =>
      seq(n, x requires 0 <= x < n =>
        if x == 6 && y < i then mark || y % 2 == 0
        else if y == 6 && x < i then mark || x % 2 == 0
        else g[y][x]))
  }

  lemma TimingStep(g: Grid, n: nat, mark: bool, i: nat)
    requires Square(g, n) && i < n && n >= 7
    ensures var v := mark || i % 2 == 0;
            Set(Set(TimingUpTo(g, n, mark, i), n, Pos(6, i), v), n, Pos(i, 6), v) == TimingUpTo(g, n, mark, i + 1)
    ensures TimingUpTo(g, n, mark, 0) == g
  {
    var v := mark || i % 2 == 0;
    var s, t := TimingUpTo(g, n, mark, i), TimingUpTo(g, n, mark, i + 1);
    var u := Set(Set(s, n, Pos(6, i), v), n, Pos(i, 6), v);
    forall p | Inside(p, n)
      ensures Get(u, n, p) == Get(t, n, p)
    {
      SetGet(s, n, Pos(6, i), v, p); SetGet(Set(s, n, Pos(6, i), v), n, Pos(i, 6), v, p);
    }
    GridEquality(u, t, n);
    GridEquality(TimingUpTo(g, n, mark, 0), g, n);
  }

  // ----- alignment patterns

  function AlignCount(version: nat): nat { if version <= 1 then 0 else version / 7 + 2 }

  function AlignStep(version: nat): nat
    requires version >= 2
  {
    if version == 32 then 26
    else (version * 4 + AlignCount(version) * 2 + 1) / (AlignCount(version) * 2 - 2) * 2
  }

  /** The k-th alignment position, on both axes. */
  function AlignAt(version: nat, k: nat): int
    requires version >= 2
  {
    if k == 0 then 6 else SizeOf(version) - 7 - (AlignCount(version) - 1 - k) * AlignStep(version)
  }

  function AlignPositions(version: nat): (s: seq<int>)
    requires IsVersion(version)
    ensures |s| == AlignCount(version)
  {
    if version == 1 then []
    else seq(AlignCount(version), k requires 0 <= k < AlignCount(version) => AlignAt(version, k))
  }

  /** The positions are at least 12 apart, and from the second on at least 18. */
  lemma AlignmentSpacing(version: nat)
    requires 2 <= version <= 40
    ensures 12 <= AlignStep(version)
    ensures 18 <= AlignAt(version, 1)
    ensures AlignAt(version, AlignCount(version) - 1) == SizeOf(version) - 7
  {
    var n, step := AlignCount(version), AlignStep(version);
    if n == 2 {
    } else if n == 3 {
      assert AlignAt(version, 1) == SizeOf(version) - 7 - step;
    } else if n == 4 {
      assert AlignAt(version, 1) == SizeOf(version) - 7 - 2 * step;
    } else if n == 5 {
      assert AlignAt(version, 1) == SizeOf(version) - 7 - 3 * step;
    } else if n == 6 {
      assert AlignAt(version, 1) == SizeOf(version) - 7 - 4 * step;
    } else {
      assert n == 7;
      assert AlignAt(version, 1) == SizeOf(version) - 7 - 5 * step;
    }
  }

  lemma AlignmentOrder(version: nat, j: nat, k: nat)
    requires 2 <= version <= 40 && j < k < AlignCount(version)
    ensures AlignAt(version, j) + 12 <= AlignAt(version, k)
    ensures 6 <= AlignAt(version, j) && AlignAt(version, k) <= SizeOf(version) - 7
  {
    hide AlignStep;
    AlignmentSpacing(version);
    var n, step := AlignCount(version), AlignStep(version);
    MulMonotone(n - 1 - k, n - 2, step);
    if j > 0 {
      MulMonotone(n - 1 - j, n - 2, step);
      assert (n - 1 - j) * step == (n - 1 - k) * step + (k - j) * step;
      MulMonotone(1, k - j, step);
    }
  }

  lemma MulMonotone(a: nat, b: nat, c: nat)
    requires a <= b
    ensures a * c <= b * c
  {
  }

  /** The alignment patterns that would fall on a finder pattern are not drawn. */
  predicate OnFinder(n: nat, i: nat, j: nat) {
    (i == 0 && j == 0) || (i == 0 && j == n - 1) || (i == n - 1 && j == 0)
  }

  /** The grid after the alignment patterns of the first `rows` positions and `cols` more. */
  function Alignments(g: Grid, version: nat, i: nat, j: nat, k: Rings): (s: Grid)
    requires IsVersion(version) && Square(g, SizeOf(version))
    requires i <= AlignCount(version) && j <= AlignCount(version)
    ensures Square(s, SizeOf(version))
    decreases i, j
  {
    if j > 0 then
      var before := Alignments(g, version, i, j - 1, k);
      if version == 1 || OnFinder(AlignCount(version), i, j - 1) then before
      else Stamp(before, SizeOf(version), AlignAt(version, i), AlignAt(version, j - 1), 2, k)
    else if i > 0 then Alignments(g, version, i - 1, AlignCount(version), k)
    else g
  }

  // ----- format information

  function FormatLevel(e: Ecc): nat {
    match e
    case Low => 1
    case Medium => 0
    case Quartile => 3
    case High => 2
  }

  const FORMAT_GENERATOR := 0x537
  const FORMAT_MASK := 0x5412

  /** The level and the mask as one number. */
  function FormatData(e: Ecc, msk: nat): nat { FormatLevel(e) * 8 + msk }

  /** The data with its remainder, masked; the remainder has 10 bits, so that | is +. */
  function FormatValue(e: Ecc, msk: nat): nat {
    var data := FormatData(e, msk);
    Bch.XorNat(data * 1024 + Bch.Division(data, FORMAT_GENERATOR, 10, 10), FORMAT_MASK)
  }

  /** The 15 format bits, most significant first. */
  function FormatBits(e: Ecc, msk: nat): (b: seq<bool>)
    requires msk < 8
    ensures |b| == 15
  {
    Bits(FormatValue(e, msk), 15)
  }

  lemma Widths()
    ensures Pow2(5) == 32 && Pow2(6) == 64 && Pow2(9) == 512 && Pow2(10) == 1024 && Pow2(11) == 2048
    ensures Pow2(12) == 4096 && Pow2(13) == 8192 && Pow2(15) == 32768 && Pow2(18) == 262144
  {
    assert Pow2(4) == 16 && Pow2(8) == 256;
    assert Pow2(12) == 4096 && Pow2(16) == 65536;
  }

  /** A step of the format division stays within 10 bits. */
  lemma FormatStepFits(e: Ecc, msk: nat, n: nat)
    requires msk < 8
    ensures Bch.Division(FormatData(e, msk), FORMAT_GENERATOR, 10, n) < 1024
  {
    hide Pow2, Bch.Division;
    Widths();
    Bch.DivisionFits(FormatData(e, msk), FORMAT_GENERATOR, 10, n);
  }

  /** The format value has 15 bits, so that its range check never fails. */
  lemma FormatFits(e: Ecc, msk: nat)
    requires msk < 8
    ensures FormatValue(e, msk) < 32768
  {
    hide Pow2, Bch.Division, Bch.XorNat;
    Widths();
    FormatStepFits(e, msk, 10);
    var data := FormatData(e, msk);
    Bch.XorBelow(data * 1024 + Bch.Division(data, FORMAT_GENERATOR, 10, 10), FORMAT_MASK, 15);
  }

  /** What the ten bits after the data are, without the mask: the remainder of the data times x^10 by
      the generator 0x537, the only ten bits that complete the data to a multiple of it. */
  lemma FormatRemainder(e: Ecc, msk: nat, r: nat)
    requires msk < 8 && r < 1024
    ensures Bch.Multiple(FORMAT_GENERATOR, FormatData(e, msk) * 1024 + r) <==>
            Bch.XorNat(FormatValue(e, msk), FORMAT_MASK) == FormatData(e, msk) * 1024 + r
  {
    hide Pow2, Bch.Division, Bch.XorNat, Bch.Multiple, Bch.Shifted;
    Widths();
    var data := FormatData(e, msk);
    Bch.DivisionIsRemainder(data, FORMAT_GENERATOR, 10, 10, r);
    Bch.ShiftedIs(data, 10); Bch.XorDisjoint(data, r, 10);
    FormatUnmask(e, msk);
  }

  lemma FormatUnmask(e: Ecc, msk: nat)
    ensures Bch.XorNat(FormatValue(e, msk), FORMAT_MASK)
         == FormatData(e, msk) * 1024 + Bch.Division(FormatData(e, msk), FORMAT_GENERATOR, 10, 10)
  {
    hide Bch.Division, Bch.XorNat;
    var v := FormatData(e, msk) * 1024 + Bch.Division(FormatData(e, msk), FORMAT_GENERATOR, 10, 10);
    Bch.XorAssociates(v, FORMAT_MASK, FORMAT_MASK); Bch.XorSelf(FORMAT_MASK); Bch.XorZeroRight(v);
  }

  /** The number of the format bit in a module of the first copy, or -1. */
  function FirstCopy(p: Pos): int {
    if p.x == 8 && p.y <= 5 then p.y
    else if p == Pos(8, 7) then 6
    else if p == Pos(8, 8) then 7
    else if p == Pos(7, 8) then 8
    else if p.y == 8 && p.x <= 5 then 14 - p.x
    else -1
  }

  /** The number of the format bit in a module of the second copy; 15 is the module that is
      always black, and -1 means neither. */
  function SecondCopy(n: nat, p: Pos): int
    requires n >= 21
  {
    if p.y == 8 && n - 8 <= p.x < n then n - 1 - p.x
    else if p.x == 8 && n - 7 <= p.y < n then p.y - (n - 15)
    else if p == Pos(8, n - 8) then 15
    else -1
  }

  predicate IsFormat(n: nat, p: Pos)
    requires n >= 21
  {
    FirstCopy(p) >= 0 || SecondCopy(n, p) >= 0
  }

  function FormatColor(n: nat, p: Pos, bits: seq<bool>): bool
    requires n >= 21 && |bits| == 15 && IsFormat(n, p)
  {
    if FirstCopy(p) >= 0 then bits[14 - FirstCopy(p)]
    else if SecondCopy(n, p) == 15 then true
    else bits[14 - SecondCopy(n, p)]
  }

  /** A grid with the format bits drawn. */
  function WithFormat(g: Grid, n: nat, bits: seq<bool>): (s: Grid)
    requires Square(g, n) && n >= 21 && |bits| == 15
    ensures Square(s, n)
  {
    seq(n, y requires 0 <= y < n =>
      seq(n, x requires 0 <= x < n => if IsFormat(n, Pos(x, y)) then FormatColor(n, Pos(x, y), bits) else g[y][x]))
  }

  /** The function module marks of the format information. */
  function MarkFormat(fn: Grid, n: nat): (s: Grid)
    requires Square(fn, n) && n >= 21
    ensures Square(s, n)
  {
    WithFormat(fn, n, AllSet(15))
  }

  function AllSet(k: nat): (b: seq<bool>)
    ensures |b| == k
  {
    seq(k, _ => true)
  }

  function FirstPos(i: nat): (p: Pos)
    requires i < 15
    ensures Inside(p, 9)
  {
    if i <= 5 then Pos(8, i) else if i == 6 then Pos(8, 7) else if i == 7 then Pos(8, 8)
    else if i == 8 then Pos(7, 8) else Pos(14 - i, 8)
  }

  function SecondPos(n: nat, i: nat): (p: Pos)
    requires n >= 21 && i < 16
    ensures Inside(p, n)
  {
    if i < 8 then Pos(n - 1 - i, 8) else if i < 15 then Pos(8, n - 15 + i) else Pos(8, n - 8)
  }

  /** The format bits below a of the first copy and below b of the second are drawn. */
  ghost function FormatUpTo(g: Grid, n: nat, bits: seq<bool>, a: nat, b: nat): (s: Grid)
    requires Square(g, n) && n >= 21 && |bits| == 15
    ensures Square(s, n)
  {
    seq(n, y requires 0 <= y < n =>
      seq(n, x requires 0 <= x < n =>
        if 0 <= FirstCopy(Pos(x, y)) < a || 0 <= SecondCopy(n, Pos(x, y)) < b
        then FormatColor(n, Pos(x, y), bits) else g[y][x]))
  }

  lemma FormatFirstStep(g: Grid, n: nat, bits: seq<bool>, i: nat)
    requires Square(g, n) && n >= 21 && |bits| == 15 && i < 15
    ensures Set(FormatUpTo(g, n, bits, i, 0), n, FirstPos(i), bits[14 - i]) == FormatUpTo(g, n, bits, i + 1, 0)
  {
    var s, t := FormatUpTo(g, n, bits, i, 0), FormatUpTo(g, n, bits, i + 1, 0);
    forall p | Inside(p, n)
      ensures Get(Set(s, n, FirstPos(i), bits[14 - i]), n, p) == Get(t, n, p)
    {
      SetGet(s, n, FirstPos(i), bits[14 - i], p);
      assert FirstCopy(p) == i <==> p == FirstPos(i);
    }
    GridEquality(Set(s, n, FirstPos(i), bits[14 - i]), t, n);
  }

  lemma FormatSecondStep(g: Grid, n: nat, bits: seq<bool>, i: nat)
    requires Square(g, n) && n >= 21 && |bits| == 15 && i < 16
    ensures Set(FormatUpTo(g, n, bits, 15, i), n, SecondPos(n, i), i == 15 || bits[14 - i])
        == FormatUpTo(g, n, bits, 15, i + 1)
  {
    var s, t, v := FormatUpTo(g, n, bits, 15, i), FormatUpTo(g, n, bits, 15, i + 1), i == 15 || bits[14 - i];
    forall p | Inside(p, n)
      ensures Get(Set(s, n, SecondPos(n, i), v), n, p) == Get(t, n, p)
    {
      SetGet(s, n, SecondPos(n, i), v, p);
      assert SecondCopy(n, p) == i <==> p == SecondPos(n, i);
    }
    GridEquality(Set(s, n, SecondPos(n, i), v), t, n);
  }

  lemma FormatEnds(g: Grid, n: nat, bits: seq<bool>)
    requires Square(g, n) && n >= 21 && |bits| == 15
    ensures FormatUpTo(g, n, bits, 0, 0) == g && FormatUpTo(g, n, bits, 15, 16) == WithFormat(g, n, bits)
  {
    GridEquality(FormatUpTo(g, n, bits, 0, 0), g, n);
    GridEquality(FormatUpTo(g, n, bits, 15, 16), WithFormat(g, n, bits), n);
  }

  // ----- version information

  const VERSION_GENERATOR := 0x1F25

  /** The version with its remainder, which has 12 bits, so that | is +. */
  function VersionValue(version: nat): nat { version * 4096 + Bch.Division(version, VERSION_GENERATOR, 12, 12) }

  /** The 18 version bits, most significant first. */
  function VersionBits(version: nat): (b: seq<bool>)
    ensures |b| == 18
  {
    Bits(VersionValue(version), 18)
  }

  /** A step of the version division stays within 12 bits, and the value within 18. */
  lemma VersionFitsBits(version: nat, n: nat)
    requires version < 64
    ensures Bch.Division(version, VERSION_GENERATOR, 12, n) < 4096 && VersionValue(version) < 262144
  {
    hide Pow2, Bch.Division;
    Widths();
    Bch.DivisionFits(version, VERSION_GENERATOR, 12, n);
    Bch.DivisionFits(version, VERSION_GENERATOR, 12, 12);
  }

  /** The twelve bits after the version are the remainder of the version times x^12 by the generator
      0x1F25, the only twelve bits that complete it to a multiple. */
  lemma VersionRemainder(version: nat, r: nat)
    requires version < 64 && r < 4096
    ensures Bch.Multiple(VERSION_GENERATOR, version * 4096 + r) <==> VersionValue(version) == version * 4096 + r
  {
    hide Pow2, Bch.Division, Bch.XorNat, Bch.Multiple, Bch.Shifted;
    Widths();
    Bch.DivisionIsRemainder(version, VERSION_GENERATOR, 12, 12, r);
    Bch.ShiftedIs(version, 12); Bch.XorDisjoint(version, r, 12);
  }

  /** The number of the version bit in a module of the block at the top right, or -1. */
  function TopRight(n: nat, p: Pos): int {
    if n - 11 <= p.x < n - 8 && p.y < 6 then p.y * 3 + (p.x - (n - 11)) else -1
  }

  /** The number of the version bit in a module, or -1. */
  function VersionCell(n: nat, p: Pos): (c: int)
    ensures c < 18
  {
    if TopRight(n, p) >= 0 then TopRight(n, p) else TopRight(n, Pos(p.y, p.x))
  }

  /** A grid with both copies of the version bits drawn. */
  function WithVersion(g: Grid, n: nat, bits: seq<bool>): (s: Grid)
    requires Square(g, n) && |bits| == 18
    ensures Square(s, n)
  {
    VersionUpTo(g, n, bits, 18)
  }

  function VersionUpTo(g: Grid, n: nat, bits: seq<bool>, i: nat): (s: Grid)
    requires Square(g, n) && |bits| == 18
    ensures Square(s, n)
  {
    seq(n, y requires 0 <= y < n =>
      seq(n, x requires 0 <= x < n =>
        var c := VersionCell(n, Pos(x, y));
        if 0 <= c < i then bits[17 - c] else g[y][x]))
  }

  lemma VersionStep(g: Grid, n: nat, bits: seq<bool>, i: nat)
    requires Square(g, n) && |bits| == 18 && i < 18 && n >= 21
    ensures var a, b, v := n - 11 + i % 3, i / 3, bits[17 - i];
            Set(Set(VersionUpTo(g, n, bits, i), n, Pos(a, b), v), n, Pos(b, a), v) == VersionUpTo(g, n, bits, i + 1)
  {
    var a, b, v := n - 11 + i % 3, i / 3, bits[17 - i];
    var s, t := VersionUpTo(g, n, bits, i), VersionUpTo(g, n, bits, i + 1);
    var u := Set(Set(s, n, Pos(a, b), v), n, Pos(b, a), v);
    forall p | Inside(p, n)
      ensures Get(u, n, p) == Get(t, n, p)
    {
      SetGet(s, n, Pos(a, b), v, p); SetGet(Set(s, n, Pos(a, b), v), n, Pos(b, a), v, p);
      VersionCellAt(n, p, i);
    }
    GridEquality(u, t, n);
  }

  lemma VersionCellAt(n: nat, p: Pos, i: nat)
    requires i < 18 && n >= 21
    ensures VersionCell(n, p) == i <==> p == Pos(n - 11 + i % 3, i / 3) || p == Pos(i / 3, n - 11 + i % 3)
  {
  }

  lemma VersionStart(g: Grid, n: nat, bits: seq<bool>)
    requires Square(g, n) && |bits| == 18
    ensures VersionUpTo(g, n, bits, 0) == g
  {
    GridEquality(VersionUpTo(g, n, bits, 0), g, n);
  }

  // ----- all function patterns

  function Blank(n: nat): (g: Grid)
    ensures Square(g, n)
  {
    seq(n, _ => seq(n, _ => false))
  }

  function Finders(g: Grid, n: nat, k: Rings): (s: Grid)
    requires Square(g, n)
    ensures Square(s, n)
  {
    Stamp(Stamp(Stamp(g, n, 3, 3, 4, k), n, n - 4, 3, 4, k), n, 3, n - 4, 4, k)
  }

  /** The function modules of a version. */
  function FunctionGrid(version: nat): (fn: Grid)
    requires IsVersion(version)
    ensures Square(fn, SizeOf(version))
  {
    var n := SizeOf(version);
    var finders := Finders(Timing(Blank(n), n, true), n, Marked);
    var marked := MarkFormat(Alignments(finders, version, AlignCount(version), 0, Marked), n);
    if version < 7 then marked else WithVersion(marked, n, AllSet(18))
  }

  /** The colours of the function modules, with the given format bits; all other modules are white. */
  function PatternGrid(version: nat, format: seq<bool>): (g: Grid)
    requires IsVersion(version) && |format| == 15
    ensures Square(g, SizeOf(version))
  {
    var n := SizeOf(version);
    var finders := Finders(Timing(Blank(n), n, false), n, FinderRings);
    var drawn := Alignments(finders, version, AlignCount(version), 0, AlignmentRings);
    var formatted := WithFormat(drawn, n, format);
    if version < 7 then formatted else WithVersion(formatted, n, VersionBits(version))
  }

  // ----- masks

  predicate Inverts(msk: nat, x: nat, y: nat)
    requires msk < 8
  {
    match msk
    case 0 => (x + y) % 2 == 0
    case 1 => y % 2 == 0
    case 2 => x % 3 == 0
    case 3 => (x + y) % 3 == 0
    case 4 => (x / 3 + y / 2) % 2 == 0
    case 5 => x * y % 2 + x * y % 3 == 0
    case 6 => (x * y % 2 + x * y % 3) % 2 == 0
    case _ => ((x + y) % 2 + x * y % 3) % 2 == 0
  }

  /** A grid with the modules inverted that the mask selects and that are not function modules. */
  function Masked(g: Grid, fn: Grid, n: nat, msk: nat): (s: Grid)
    requires Square(g, n) && Square(fn, n) && msk < 8
    ensures Square(s, n)
  {
    seq(n, y requires 0 <= y < n =>
      seq(n, x requires 0 <= x < n => g[y][x] != (Inverts(msk, x, y) && !fn[y][x])))
  }

  /** The mask has been applied to the modules before column x of row y. */
  ghost function MaskedUpTo(g: Grid, fn: Grid, n: nat, msk: nat, x: nat, y: nat): (s: Grid)
    requires Square(g, n) && Square(fn, n) && msk < 8
    ensures Square(s, n)
  {
    seq(n, r requires 0 <= r < n =>
      seq(n, c requires 0 <= c < n =>
        if r < y || (r == y && c < x) then g[r][c] != (Inverts(msk, c, r) && !fn[r][c]) else g[r][c]))
  }

  lemma MaskStep(g: Grid, fn: Grid, n: nat, msk: nat, x: nat, y: nat)
    requires Square(g, n) && Square(fn, n) && msk < 8 && x < n && y < n
    ensures var s := MaskedUpTo(g, fn, n, msk, x, y);
            Set(s, n, Pos(x, y), Get(s, n, Pos(x, y)) != (Inverts(msk, x, y) && !Get(fn, n, Pos(x, y))))
              == MaskedUpTo(g, fn, n, msk, x + 1, y)
  {
    hide Inverts;
    var s, t := MaskedUpTo(g, fn, n, msk, x, y), MaskedUpTo(g, fn, n, msk, x + 1, y);
    var v := Get(s, n, Pos(x, y)) != (Inverts(msk, x, y) && !fn[y][x]);
    forall p | Inside(p, n)
      ensures Get(Set(s, n, Pos(x, y), v), n, p) == Get(t, n, p)
    {
      SetGet(s, n, Pos(x, y), v, p);
    }
    GridEquality(Set(s, n, Pos(x, y), v), t, n);
  }

  lemma MaskEnds(g: Grid, fn: Grid, n: nat, msk: nat, y: nat)
    requires Square(g, n) && Square(fn, n) && msk < 8
    ensures MaskedUpTo(g, fn, n, msk, 0, 0) == g
    ensures MaskedUpTo(g, fn, n, msk, n, y) == MaskedUpTo(g, fn, n, msk, 0, y + 1)
    ensures MaskedUpTo(g, fn, n, msk, 0, n) == Masked(g, fn, n, msk)
  {
    hide Inverts;
    GridEquality(MaskedUpTo(g, fn, n, msk, 0, 0), g, n);
    GridEquality(MaskedUpTo(g, fn, n, msk, n, y), MaskedUpTo(g, fn, n, msk, 0, y + 1), n);
    GridEquality(MaskedUpTo(g, fn, n, msk, 0, n), Masked(g, fn, n, msk), n);
  }

  /** Applying a mask twice undoes it. */
  lemma MaskIsInvolution(g: Grid, fn: Grid, n: nat, msk: nat)
    requires Square(g, n) && Square(fn, n) && msk < 8
    ensures Masked(Masked(g, fn, n, msk), fn, n, msk) == g
  {
    hide Inverts;
    var twice := Masked(Masked(g, fn, n, msk), fn, n, msk);
    GridEquality(twice, g, n);
  }

  ghost predicate FormatMarked(fn: Grid, n: nat)
    requires Square(fn, n) && n >= 21
  {
    forall p :: Inside(p, n) && IsFormat(n, p) ==> Get(fn, n, p)
  }

  /** Where the format modules are function modules, drawing format bits before masking has no
      effect on a symbol whose format bits are drawn again. */
  lemma FormatOverwritten(g: Grid, fn: Grid, n: nat, msk: nat, old_bits: seq<bool>, bits: seq<bool>)
    requires Square(g, n) && Square(fn, n) && msk < 8 && n >= 21 && |old_bits| == |bits| == 15
    ensures WithFormat(Masked(WithFormat(g, n, old_bits), fn, n, msk), n, bits)
        == WithFormat(Masked(g, fn, n, msk), n, bits)
  {
    hide Inverts, IsFormat, FormatColor;
    GridEquality(WithFormat(Masked(WithFormat(g, n, old_bits), fn, n, msk), n, bits),
                 WithFormat(Masked(g, fn, n, msk), n, bits), n);
  }

  /** Masking commutes with drawing format bits on function modules. */
  lemma FormatUnmasked(g: Grid, fn: Grid, n: nat, msk: nat, bits: seq<bool>)
    requires Square(g, n) && Square(fn, n) && msk < 8 && n >= 21 && |bits| == 15 && FormatMarked(fn, n)
    ensures Masked(WithFormat(Masked(g, fn, n, msk), n, bits), fn, n, msk) == WithFormat(g, n, bits)
  {
    hide Inverts, IsFormat, FormatColor;
    var a, b := Masked(WithFormat(Masked(g, fn, n, msk), n, bits), fn, n, msk), WithFormat(g, n, bits);
    forall p | Inside(p, n)
      ensures Get(a, n, p) == Get(b, n, p)
    {
      if IsFormat(n, p) { assert Get(fn, n, p); }
    }
    GridEquality(a, b, n);
  }
}
