/** The rules and tables of ISO/IEC 18004:2015 that a reader of symbols needs, in terms of rows and
    columns, codewords and bits. Nothing here refers to the encoder. */
module Standard {
  import opened Wrappers

  /** A module by its row i from the top and its column j from the left. */
  datatype Cell = Cell(i: nat, j: nat)

  datatype Level = L | M | Q | H

  predicate Numbered(v: int) { 1 <= v <= 40 }

  /** Modules on a side: 21 in version 1, and four more in each version after it. */
  function Side(v: nat): nat
    requires Numbered(v)
  {
    21 + 4 * (v - 1)
  }

  // ----- codewords (tables 1, 7 and 9)

  /** The codewords of a symbol, data and error correction together. */
  function TotalCodewords(v: nat): nat
    requires Numbered(v)
  {
    match v
    case 1 => 26
    case 2 => 44
    case 3 => 70
    case 4 => 100
    case 5 => 134
    case 6 => 172
    case 7 => 196
    case 8 => 242
    case 9 => 292
    case 10 => 346
    case 11 => 404
    case 12 => 466
    case 13 => 532
    case 14 => 581
    case 15 => 655
    case 16 => 733
    case 17 => 815
    case 18 => 901
    case 19 => 991
    case 20 => 1085
    case 21 => 1156
    case 22 => 1258
    case 23 => 1364
    case 24 => 1474
    case 25 => 1588
    case 26 => 1706
    case 27 => 1828
    case 28 => 1921
    case 29 => 2051
    case 30 => 2185
    case 31 => 2323
    case 32 => 2465
    case 33 => 2611
    case 34 => 2761
    case 35 => 2876
    case 36 => 3034
    case 37 => 3196
    case 38 => 3362
    case 39 => 3532
    case _ => 3706
  }

  /** One number for each level. */
  datatype Quad = Quad(l: nat, m: nat, q: nat, h: nat)

  function Pick(r: Quad, level: Level): nat {
    match level
    case L => r.l
    case M => r.m
    case Q => r.q
    case H => r.h
  }

  /** The data codewords of a symbol. */
  function DataTable(v: nat): Quad
    requires Numbered(v)
  {
    match v
    case 1 => Quad(19, 16, 13, 9)
    case 2 => Quad(34, 28, 22, 16)
    case 3 => Quad(55, 44, 34, 26)
    case 4 => Quad(80, 64, 48, 36)
    case 5 => Quad(108, 86, 62, 46)
    case 6 => Quad(136, 108, 76, 60)
    case 7 => Quad(156, 124, 88, 66)
    case 8 => Quad(194, 154, 110, 86)
    case 9 => Quad(232, 182, 132, 100)
    case 10 => Quad(274, 216, 154, 122)
    case 11 => Quad(324, 254, 180, 140)
    case 12 => Quad(370, 290, 206, 158)
    case 13 => Quad(428, 334, 244, 180)
    case 14 => Quad(461, 365, 261, 197)
    case 15 => Quad(523, 415, 295, 223)
    case 16 => Quad(589, 453, 325, 253)
    case 17 => Quad(647, 507, 367, 283)
    case 18 => Quad(721, 563, 397, 313)
    case 19 => Quad(795, 627, 445, 341)
    case 20 => Quad(861, 669, 485, 385)
    case 21 => Quad(932, 714, 512, 406)
    case 22 => Quad(1006, 782, 568, 442)
    case 23 => Quad(1094, 860, 614, 464)
    case 24 => Quad(1174, 914, 664, 514)
    case 25 => Quad(1276, 1000, 718, 538)
    case 26 => Quad(1370, 1062, 754, 596)
    case 27 => Quad(1468, 1128, 808, 628)
    case 28 => Quad(1531, 1193, 871, 661)
    case 29 => Quad(1631, 1267, 911, 701)
    case 30 => Quad(1735, 1373, 985, 745)
    case 31 => Quad(1843, 1455, 1033, 793)
    case 32 => Quad(1955, 1541, 1115, 845)
    case 33 => Quad(2071, 1631, 1171, 901)
    case 34 => Quad(2191, 1725, 1231, 961)
    case 35 => Quad(2306, 1812, 1286, 986)
    case 36 => Quad(2434, 1914, 1354, 1054)
    case 37 => Quad(2566, 1992, 1426, 1096)
    case 38 => Quad(2702, 2102, 1502, 1142)
    case 39 => Quad(2812, 2216, 1582, 1222)
    case _ => Quad(2956, 2334, 1666, 1276)
  }

  /** The error correction blocks of a symbol. */
  function BlockTable(v: nat): (r: Quad)
    requires Numbered(v)
    ensures r.l >= 1 && r.m >= 1 && r.q >= 1 && r.h >= 1
  {
    match v
    case 1 => Quad(1, 1, 1, 1)
    case 2 => Quad(1, 1, 1, 1)
    case 3 => Quad(1, 1, 2, 2)
    case 4 => Quad(1, 2, 2, 4)
    case 5 => Quad(1, 2, 4, 4)
    case 6 => Quad(2, 4, 4, 4)
    case 7 => Quad(2, 4, 6, 5)
    case 8 => Quad(2, 4, 6, 6)
    case 9 => Quad(2, 5, 8, 8)
    case 10 => Quad(4, 5, 8, 8)
    case 11 => Quad(4, 5, 8, 11)
    case 12 => Quad(4, 8, 10, 11)
    case 13 => Quad(4, 9, 12, 16)
    case 14 => Quad(4, 9, 16, 16)
    case 15 => Quad(6, 10, 12, 18)
    case 16 => Quad(6, 10, 17, 16)
    case 17 => Quad(6, 11, 16, 19)
    case 18 => Quad(6, 13, 18, 21)
    case 19 => Quad(7, 14, 21, 25)
    case 20 => Quad(8, 16, 20, 25)
    case 21 => Quad(8, 17, 23, 25)
    case 22 => Quad(9, 17, 23, 34)
    case 23 => Quad(9, 18, 25, 30)
    case 24 => Quad(10, 20, 27, 32)
    case 25 => Quad(12, 21, 29, 35)
    case 26 => Quad(12, 23, 34, 37)
    case 27 => Quad(12, 25, 34, 40)
    case 28 => Quad(13, 26, 35, 42)
    case 29 => Quad(14, 28, 38, 45)
    case 30 => Quad(15, 29, 40, 48)
    case 31 => Quad(16, 31, 43, 51)
    case 32 => Quad(17, 33, 45, 54)
    case 33 => Quad(18, 35, 48, 57)
    case 34 => Quad(19, 37, 51, 60)
    case 35 => Quad(19, 38, 53, 63)
    case 36 => Quad(20, 40, 56, 66)
    case 37 => Quad(21, 43, 59, 70)
    case 38 => Quad(22, 45, 62, 74)
    case 39 => Quad(24, 47, 65, 77)
    case _ => Quad(25, 49, 68, 81)
  }

  function DataCodewords(v: nat, level: Level): nat
    requires Numbered(v)
  {
    Pick(DataTable(v), level)
  }

  function BlockCount(v: nat, level: Level): (b: nat)
    requires Numbered(v)
    ensures b >= 1
  {
    Pick(BlockTable(v), level)
  }

  /** The error correction codewords of each block. */
  function CheckCodewords(v: nat, level: Level): int
    requires Numbered(v)
  {
    (TotalCodewords(v) - DataCodewords(v, level)) / BlockCount(v, level)
  }

  // ----- the final sequence of codewords (section 7.6)

  /** The place in a symbol of data codeword k of block b, when `data` codewords are spread over
      `blocks` blocks: the first codewords of all blocks, then the second ones, and so on; the
      blocks that are one codeword longer come last and have a row of their own. */
  function PlaceOf(data: nat, blocks: nat, b: nat, k: nat): int
    requires blocks >= 1
  {
    var short := data / blocks;
    if k < short then k * blocks + b else short * blocks + b - (blocks - data % blocks)
  }

  /** The data codewords of block b. */
  function BlockLength(data: nat, blocks: nat, b: nat): nat
    requires blocks >= 1
  {
    if b < blocks - data % blocks then data / blocks else data / blocks + 1
  }

  /** The places of the data codewords of the first b blocks, block by block. */
  function Places(data: nat, blocks: nat, b: nat): seq<int>
    requires blocks >= 1
  {
    if b == 0 then []
    else
      var size := BlockLength(data, blocks, b - 1);
      Places(data, blocks, b - 1) + seq(size, k requires 0 <= k < size => PlaceOf(data, blocks, b - 1, k))
  }

  /** The bits of the codewords at the given places of a bit stream. */
  function Gather(bits: seq<bool>, places: seq<int>): seq<bool>
    requires forall k :: 0 <= k < |places| ==> 0 <= 8 * places[k] <= |bits| - 8
  {
    if places == [] then []
    else
      var at := 8 * places[|places| - 1];
      Gather(bits, places[..|places| - 1]) + bits[at..at + 8]
  }

  // ----- error correction (section 7.5)

  /** Bytes are added bit by bit. */
  function Plus(a: nat, b: nat): nat
    decreases a + b
  {
    if a == 0 && b == 0 then 0 else 2 * Plus(a / 2, b / 2) + if a % 2 == b % 2 then 0 else 1
  }

  /** Twice a byte, modulo 100011101. */
  function Twice(a: nat): nat { if 2 * a < 256 then 2 * a else Plus(2 * a, 285) }

  /** The product of two bytes, modulo 100011101. */
  function Multiplied(a: nat, b: nat): nat {
    if b == 0 then 0 else Plus(if b % 2 == 1 then a else 0, Twice(Multiplied(a, b / 2)))
  }

  /** The powers of 2. */
  function Alpha(i: nat): nat { if i == 0 then 1 else Twice(Alpha(i - 1)) }

  /** The value at a of the polynomial with these coefficients, that of the highest power first. */
  function ValueAt(word: seq<nat>, a: nat): nat {
    if word == [] then 0 else Plus(Multiplied(ValueAt(word[..|word| - 1], a), a), word[|word| - 1])
  }

  /** The number of the codeword at a place of a bit stream. */
  function CodewordAt(bits: seq<bool>, place: int): nat {
    if 0 <= 8 * place <= |bits| - 8 then Field(bits[8 * place..8 * place + 8]) else 0
  }

  /** The codewords of block b: its data, and its share of the error correction codewords, which
      follow all data codewords in turns. */
  function BlockWord(bits: seq<bool>, data: nat, blocks: nat, check: nat, b: nat): seq<nat>
    requires blocks >= 1
  {
    var size := BlockLength(data, blocks, b);
    seq(size, k requires 0 <= k < size => CodewordAt(bits, PlaceOf(data, blocks, b, k))) +
    seq(check, k requires 0 <= k < check => CodewordAt(bits, data + k * blocks + b))
  }

  /** Every block, as a polynomial, vanishes at 1, 2, 4 and so on, at as many powers of 2 as the block
      has error correction codewords. */
  ghost predicate BlocksVanish(bits: seq<bool>, data: nat, blocks: nat, check: nat)
    requires blocks >= 1
  {
    forall b, i :: 0 <= b < blocks && 0 <= i < check ==>
      ValueAt(BlockWord(bits, data, blocks, check, b), Alpha(i)) == 0
  }

  // ----- function patterns (section 6.3, annex E)

  /** The rows and columns of the centres of alignment patterns. */
  function Centres(v: nat): seq<nat>
    requires Numbered(v)
  {
    match v
    case 1 => []
    case 2 => [6, 18]
    case 3 => [6, 22]
    case 4 => [6, 26]
    case 5 => [6, 30]
    case 6 => [6, 34]
    case 7 => [6, 22, 38]
    case 8 => [6, 24, 42]
    case 9 => [6, 26, 46]
    case 10 => [6, 28, 50]
    case 11 => [6, 30, 54]
    case 12 => [6, 32, 58]
    case 13 => [6, 34, 62]
    case 14 => [6, 26, 46, 66]
    case 15 => [6, 26, 48, 70]
    case 16 => [6, 26, 50, 74]
    case 17 => [6, 30, 54, 78]
    case 18 => [6, 30, 56, 82]
    case 19 => [6, 30, 58, 86]
    case 20 => [6, 34, 62, 90]
    case 21 => [6, 28, 50, 72, 94]
    case 22 => [6, 26, 50, 74, 98]
    case 23 => [6, 30, 54, 78, 102]
    case 24 => [6, 28, 54, 80, 106]
    case 25 => [6, 32, 58, 84, 110]
    case 26 => [6, 30, 58, 86, 114]
    case 27 => [6, 34, 62, 90, 118]
    case 28 => [6, 26, 50, 74, 98, 122]
    case 29 => [6, 30, 54, 78, 102, 126]
    case 30 => [6, 26, 52, 78, 104, 130]
    case 31 => [6, 30, 56, 82, 108, 134]
    case 32 => [6, 34, 60, 86, 112, 138]
    case 33 => [6, 30, 58, 86, 114, 142]
    case 34 => [6, 34, 62, 90, 118, 146]
    case 35 => [6, 30, 54, 78, 102, 126, 150]
    case 36 => [6, 24, 50, 76, 102, 128, 154]
    case 37 => [6, 28, 54, 80, 106, 132, 158]
    case 38 => [6, 32, 58, 84, 110, 136, 162]
    case 39 => [6, 26, 54, 82, 110, 138, 166]
    case _ => [6, 30, 58, 86, 114, 142, 170]
  }

  /** An alignment pattern is centred on row a and column b: not where finder patterns are. */
  predicate Centre(v: nat, a: nat, b: nat)
    requires Numbered(v)
  {
    var far := Side(v) - 7;
    && a in Centres(v) && b in Centres(v) && 6 <= a <= far && 6 <= b <= far
    && !(a == 6 && b == 6) && !(a == 6 && b == far) && !(a == far && b == 6)
  }

  ghost predicate InAlignmentPattern(v: nat, i: nat, j: nat)
    requires Numbered(v)
  {
    exists a: nat, b: nat :: Centre(v, a, b) && a - 2 <= i <= a + 2 && b - 2 <= j <= b + 2
  }

  /** The modules that hold no codewords: timing patterns; finder patterns, separators and format
      information; alignment patterns; and version information from version 7 on. */
  ghost predicate FunctionCell(v: nat, c: Cell)
    requires Numbered(v)
  {
    var n := Side(v);
    || c.i == 6 || c.j == 6
    || (c.i <= 8 && c.j <= 8) || (c.i <= 8 && n - 8 <= c.j) || (n - 8 <= c.i && c.j <= 8)
    || InAlignmentPattern(v, c.i, c.j)
    || (v >= 7 && c.i <= 5 && n - 11 <= c.j <= n - 9)
    || (v >= 7 && c.j <= 5 && n - 11 <= c.i <= n - 9)
  }

  /** A finder pattern with the light separator on two of its sides, from its corner of the symbol:
      a dark frame of 7 x 7 modules around a dark square of 3 x 3. */
  predicate FinderDark(i: nat, j: nat) {
    i <= 6 && j <= 6 && (i == 0 || i == 6 || j == 0 || j == 6 || (2 <= i <= 4 && 2 <= j <= 4))
  }

  /** A dark frame of 5 x 5 modules around a dark module. */
  predicate AlignmentDark(i: nat, j: nat) { i == 0 || i == 4 || j == 0 || j == 4 || (i == 2 && j == 2) }

  type Modules = seq<seq<bool>>

  predicate Sided(g: Modules, n: nat) { |g| == n && forall i :: 0 <= i < n ==> |g[i]| == n }

  ghost predicate FindersDrawn(g: Modules, n: nat)
    requires Sided(g, n) && n >= 21
  {
    && (forall i, j :: 0 <= i < 8 && 0 <= j < 8 ==> g[i][j] == FinderDark(i, j))
    && (forall i, j :: 0 <= i < 8 && 0 <= j < 8 ==> g[i][n - 1 - j] == FinderDark(i, j))
    && (forall i, j :: 0 <= i < 8 && 0 <= j < 8 ==> g[n - 1 - i][j] == FinderDark(i, j))
  }

  /** Dark and light modules alternate between the finder patterns. */
  ghost predicate TimingDrawn(g: Modules, n: nat)
    requires Sided(g, n) && n >= 21
  {
    forall k :: 8 <= k < n - 8 ==> g[6][k] == (k % 2 == 0) && g[k][6] == (k % 2 == 0)
  }

  ghost predicate AlignmentDrawn(g: Modules, v: nat)
    requires Numbered(v) && Sided(g, Side(v))
  {
    forall a: nat, b: nat, i, j :: Centre(v, a, b) && 0 <= i < 5 && 0 <= j < 5 ==>
      g[a - 2 + i][b - 2 + j] == AlignmentDark(i, j)
  }

  /** The fixed patterns of a symbol, with the module beside the lower left finder pattern that is
      always dark. */
  ghost predicate PatternsDrawn(g: Modules, v: nat)
    requires Numbered(v) && Sided(g, Side(v))
  {
    FindersDrawn(g, Side(v)) && TimingDrawn(g, Side(v)) && AlignmentDrawn(g, v) && g[4 * v + 9][8]
  }

  // ----- codeword placement (section 7.7.3)

  /** The right column of pair t of columns, counted from the right; the timing pattern in column 6
      belongs to no pair. */
  function PairColumn(n: nat, t: nat): nat
    requires 2 * t + 2 <= n
  {
    if n - 1 - 2 * t > 6 then n - 1 - 2 * t else n - 2 - 2 * t
  }

  /** The modules of pair t: upwards when t is even and downwards when it is odd, and in each row the
      right module first. */
  function Pair(n: nat, t: nat): (s: seq<Cell>)
    requires 2 * t + 3 <= n
    ensures |s| == 2 * n
  {
    seq(2 * n, m requires 0 <= m < 2 * n =>
      Cell(if t % 2 == 0 then n - 1 - m / 2 else m / 2, PairColumn(n, t) - m % 2))
  }

  /** All pairs from pair t on, from the right edge to the left. */
  function Order(n: nat, t: nat): seq<Cell>
    requires 2 * t + 1 <= n
    decreases n - 2 * t
  {
    if n < 2 * t + 3 then [] else Pair(n, t) + Order(n, t + 1)
  }

  /** The modules of a sequence that hold codewords. */
  ghost function DataCells(cells: seq<Cell>, v: nat): seq<Cell>
    requires Numbered(v)
  {
    if cells == [] then []
    else
      var last := cells[|cells| - 1];
      DataCells(cells[..|cells| - 1], v) + if FunctionCell(v, last) then [] else [last]
  }

  // ----- masks (table 10)

  /** Whether a mask inverts row i and column j. */
  predicate MaskInverts(mask: nat, i: nat, j: nat) {
    match mask
    case 0 => i % 2 == j % 2
    case 1 => i % 2 == 0
    case 2 => j % 3 == 0
    case 3 => (i % 3 + j % 3) % 3 == 0
    case 4 => i / 2 % 2 == j / 3 % 2
    case 5 => i * j % 6 == 0
    case 6 => i * j % 6 < 3
    case _ => (i + j + i * j % 3) % 2 == 0
  }

  // ----- evaluation of masks (section 7.8.3, table 11)

  /** The modules from `from` up to `to` have one colour. */
  predicate Uniform(line: seq<bool>, from: int, to: int, dark: bool) {
    0 <= from <= to <= |line| && forall k :: from <= k < to ==> line[k] == dark
  }

  /** Adjacent modules of one colour: the fifth costs 3 points, and every further one costs 1. */
  function AdjacentPoints(line: seq<bool>): nat {
    if line == [] then 0
    else
      var n, last := |line|, line[|line| - 1];
      AdjacentPoints(line[..n - 1]) +
      if !Uniform(line, n - 5, n, last) then 0 else if n > 5 && line[n - 6] == last then 1 else 3
  }

  /** Dark, light, dark, light and dark areas in the ratio 1:1:3:1:1, with unit n, from module p on;
      with light areas of the given widths before and after. */
  predicate FinderLike(line: seq<bool>, p: int, n: nat, before: nat, after: nat) {
    && n >= 1
    && Uniform(line, p - before, p, false)
    && Uniform(line, p, p + n, true) && Uniform(line, p + n, p + 2 * n, false)
    && Uniform(line, p + 2 * n, p + 5 * n, true)
    && Uniform(line, p + 5 * n, p + 6 * n, false) && Uniform(line, p + 6 * n, p + 7 * n, true)
    && Uniform(line, p + 7 * n, p + 7 * n + after, false)
  }

  /** The patterns with a light area of four units after them, and of one unit before them. */
  ghost function FollowedByLight(line: seq<bool>): set<(int, int)> {
    set p, n: nat | 0 <= p <= |line| && 0 <= n <= |line| && FinderLike(line, p, n, n, 4 * n) :: (p, n)
  }

  /** The patterns with a light area of four units before them, and of one unit after them. */
  ghost function PrecededByLight(line: seq<bool>): set<(int, int)> {
    set p, n: nat | 0 <= p <= |line| && 0 <= n <= |line| && FinderLike(line, p, n, 4 * n, n) :: (p, n)
  }

  /** A row or column of a symbol of which the surroundings are light. */
  function WithSurroundings(line: seq<bool>): seq<bool> {
    var light := seq(|line|, _ => false);
    light + line + light
  }

  /** A row or column: adjacent modules of one colour, and 40 points for every pattern. */
  ghost function LinePoints(line: seq<bool>): nat {
    var wide := WithSurroundings(line);
    AdjacentPoints(line) + 40 * (|FollowedByLight(wide)| + |PrecededByLight(wide)|)
  }

  ghost function RowPoints(g: Modules, n: nat, k: nat): nat
    requires Sided(g, n) && k <= n
  {
    if k == 0 then 0 else RowPoints(g, n, k - 1) + LinePoints(g[k - 1])
  }

  ghost function ColumnPoints(g: Modules, n: nat, k: nat): nat
    requires Sided(g, n) && k <= n
  {
    if k == 0 then 0
    else ColumnPoints(g, n, k - 1) + LinePoints(seq(n, i requires 0 <= i < n => g[i][k - 1]))
  }

  /** The squares of 2 x 2 modules of one colour. */
  ghost function Squares(g: Modules, n: nat): set<(int, int)>
    requires Sided(g, n)
  {
    set i, j | 0 <= i < n - 1 && 0 <= j < n - 1 && g[i][j] == g[i][j + 1] == g[i + 1][j] == g[i + 1][j + 1] :: (i, j)
  }

  ghost function DarkModules(g: Modules, n: nat): set<(int, int)>
    requires Sided(g, n)
  {
    set i, j | 0 <= i < n && 0 <= j < n && g[i][j] :: (i, j)
  }

  /** The share of dark modules is within 50 percent, give or take 5 * (k + 1). */
  ghost predicate ShareWithin(g: Modules, n: nat, k: nat)
    requires Sided(g, n)
  {
    (50 - 5 * (k + 1)) * (n * n) <= 100 * |DarkModules(g, n)| <= (50 + 5 * (k + 1)) * (n * n)
  }

  /** The number of steps of 5 percent by which the share of dark modules is off. */
  ghost predicate LeastShare(g: Modules, n: nat, k: nat)
    requires Sided(g, n)
  {
    ShareWithin(g, n, k) && (k > 0 ==> !ShareWithin(g, n, k - 1))
  }

  /** The points of a symbol: those of its rows and columns, 3 for every square, and 10 for every step
      by which the share of dark modules is off. */
  ghost predicate HasPoints(g: Modules, n: nat, points: int)
    requires Sided(g, n)
  {
    exists k: nat ::
      LeastShare(g, n, k) && points == RowPoints(g, n, n) + ColumnPoints(g, n, n) + 3 * |Squares(g, n)| + 10 * k
  }

  // ----- format and version information (sections 7.9 and 7.10, annexes C and D)

  datatype Format = Format(level: Level, mask: nat)

  /** The formats and their 15 bits, as numbers. */
  function FormatOf(word: nat): (f: Option<Format>)
    ensures f.Some? ==> f.value.mask < 8
  {
    match word
    case 0x5412 => Some(Format(M, 0))
    case 0x5125 => Some(Format(M, 1))
    case 0x5E7C => Some(Format(M, 2))
    case 0x5B4B => Some(Format(M, 3))
    case 0x45F9 => Some(Format(M, 4))
    case 0x40CE => Some(Format(M, 5))
    case 0x4F97 => Some(Format(M, 6))
    case 0x4AA0 => Some(Format(M, 7))
    case 0x77C4 => Some(Format(L, 0))
    case 0x72F3 => Some(Format(L, 1))
    case 0x7DAA => Some(Format(L, 2))
    case 0x789D => Some(Format(L, 3))
    case 0x662F => Some(Format(L, 4))
    case 0x6318 => Some(Format(L, 5))
    case 0x6C41 => Some(Format(L, 6))
    case 0x6976 => Some(Format(L, 7))
    case 0x1689 => Some(Format(H, 0))
    case 0x13BE => Some(Format(H, 1))
    case 0x1CE7 => Some(Format(H, 2))
    case 0x19D0 => Some(Format(H, 3))
    case 0x0762 => Some(Format(H, 4))
    case 0x0255 => Some(Format(H, 5))
    case 0x0D0C => Some(Format(H, 6))
    case 0x083B => Some(Format(H, 7))
    case 0x355F => Some(Format(Q, 0))
    case 0x3068 => Some(Format(Q, 1))
    case 0x3F31 => Some(Format(Q, 2))
    case 0x3A06 => Some(Format(Q, 3))
    case 0x24B4 => Some(Format(Q, 4))
    case 0x2183 => Some(Format(Q, 5))
    case 0x2EDA => Some(Format(Q, 6))
    case 0x2BED => Some(Format(Q, 7))
    case _ => None
  }

  /** The modules of the format information beside the upper left finder pattern, most significant
      bit first. */
  function FormatCells(): (s: seq<Cell>)
    ensures |s| == 15 && forall k :: 0 <= k < 15 ==> s[k].i <= 8 && s[k].j <= 8
  {
    [Cell(8, 0), Cell(8, 1), Cell(8, 2), Cell(8, 3), Cell(8, 4), Cell(8, 5), Cell(8, 7), Cell(8, 8),
     Cell(7, 8), Cell(5, 8), Cell(4, 8), Cell(3, 8), Cell(2, 8), Cell(1, 8), Cell(0, 8)]
  }

  /** The modules of the other copy, beside the lower left and the upper right finder pattern. */
  function FormatCellsAgain(n: nat): (s: seq<Cell>)
    requires n >= 21
    ensures |s| == 15 && forall k :: 0 <= k < 15 ==> s[k].i < n && s[k].j < n
  {
    [Cell(n - 1, 8), Cell(n - 2, 8), Cell(n - 3, 8), Cell(n - 4, 8), Cell(n - 5, 8), Cell(n - 6, 8), Cell(n - 7, 8),
     Cell(8, n - 8), Cell(8, n - 7), Cell(8, n - 6), Cell(8, n - 5), Cell(8, n - 4), Cell(8, n - 3), Cell(8, n - 2),
     Cell(8, n - 1)]
  }

  /** The 18 bits of the version information, as a number. */
  function VersionWord(v: nat): nat
    requires 7 <= v <= 40
  {
    match v
    case 7 => 0x07C94
    case 8 => 0x085BC
    case 9 => 0x09A99
    case 10 => 0x0A4D3
    case 11 => 0x0BBF6
    case 12 => 0x0C762
    case 13 => 0x0D847
    case 14 => 0x0E60D
    case 15 => 0x0F928
    case 16 => 0x10B78
    case 17 => 0x1145D
    case 18 => 0x12A17
    case 19 => 0x13532
    case 20 => 0x149A6
    case 21 => 0x15683
    case 22 => 0x168C9
    case 23 => 0x177EC
    case 24 => 0x18EC4
    case 25 => 0x191E1
    case 26 => 0x1AFAB
    case 27 => 0x1B08E
    case 28 => 0x1CC1A
    case 29 => 0x1D33F
    case 30 => 0x1ED75
    case 31 => 0x1F250
    case 32 => 0x209D5
    case 33 => 0x216F0
    case 34 => 0x228BA
    case 35 => 0x2379F
    case 36 => 0x24B0B
    case 37 => 0x2542E
    case 38 => 0x26A64
    case 39 => 0x27541
    case _ => 0x28C69
  }

  /** The modules of the version information above the lower left finder pattern, most significant
      bit first; those beside the upper right one are their mirror images. */
  function VersionCells(n: nat): (s: seq<Cell>)
    requires n >= 45
    ensures |s| == 18 && forall k :: 0 <= k < 18 ==> s[k].i < n && s[k].j < n
  {
    [Cell(n - 9, 5), Cell(n - 10, 5), Cell(n - 11, 5), Cell(n - 9, 4), Cell(n - 10, 4), Cell(n - 11, 4),
     Cell(n - 9, 3), Cell(n - 10, 3), Cell(n - 11, 3), Cell(n - 9, 2), Cell(n - 10, 2), Cell(n - 11, 2),
     Cell(n - 9, 1), Cell(n - 10, 1), Cell(n - 11, 1), Cell(n - 9, 0), Cell(n - 10, 0), Cell(n - 11, 0)]
  }

  function Mirrored(cells: seq<Cell>): (s: seq<Cell>)
    ensures |s| == |cells|
  {
    seq(|cells|, k requires 0 <= k < |cells| => Cell(cells[k].j, cells[k].i))
  }

  /** The modules at the given places. */
  function Colours(g: Modules, n: nat, cells: seq<Cell>): (bits: seq<bool>)
    requires Sided(g, n) && forall k :: 0 <= k < |cells| ==> cells[k].i < n && cells[k].j < n
    ensures |bits| == |cells|
  {
    seq(|cells|, k requires 0 <= k < |cells| => g[cells[k].i][cells[k].j])
  }

  // ----- the data bit stream (section 7.4)

  /** The number in a field, whose first bit is the most significant. */
  function Field(bits: seq<bool>): nat { Horner(bits, 0) }

  /** The number that `high` becomes when the bits are appended to it. */
  function Horner(bits: seq<bool>, high: nat): nat {
    if bits == [] then high else Horner(bits[1..], 2 * high + if bits[0] then 1 else 0)
  }

  /** The width of the character count after the mode indicators 1 (numeric), 2 (alphanumeric),
      4 (byte) and 8 (Kanji), by version (table 3); other indicators have none. */
  function CountWidth(indicator: nat, v: nat): (w: nat)
    requires Numbered(v)
  {
    if indicator == 1 then if v <= 9 then 10 else if v <= 26 then 12 else 14
    else if indicator == 2 then if v <= 9 then 9 else if v <= 26 then 11 else 13
    else if indicator == 4 then if v <= 9 then 8 else 16
    else if indicator == 8 then if v <= 9 then 8 else if v <= 26 then 10 else 12
    else 0
  }

  /** The character of a value in alphanumeric mode (table 5): digits, letters and nine others. */
  function AlphanumericCharacter(v: nat): (c: nat)
    requires v < 45
    ensures 32 <= c <= 90
  {
    if v < 10 then 48 + v
    else if v < 36 then 65 + (v - 10)
    else
      match v
      case 36 => 32
      case 37 => 36
      case 38 => 37
      case 39 => 42
      case 40 => 43
      case 41 => 45
      case 42 => 46
      case 43 => 47
      case _ => 58
  }

  /** The pad codewords 11101100 and 00010001, in turn (section 7.4.10). */
  function PadCodeword(k: nat): seq<bool> {
    if k % 2 == 0 then [true, true, true, false, true, true, false, false]
    else [false, false, false, true, false, false, false, true]
  }
}
