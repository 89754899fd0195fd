/** The penalty score of a symbol: runs, finder-like patterns, 2*2 blocks and balance. */
module Penalty {
  import opened Integers
  import opened Wrappers
  import opened Zigzag

  const PENALTY_N1 := 3
  const PENALTY_N2 := 3
  const PENALTY_N3 := 40
  const PENALTY_N4 := 10

  // ----- the runs of a line

  /** The finished runs of a line read so far, and the colour and length of the current one.
      Runs alternate in colour, and the first is white and may be empty. */
  datatype Progress = Progress(done: seq<nat>, color: bool, len: nat)

  function ScanLine(line: seq<bool>): Progress {
    if line == [] then Progress([], false, 0)
    else
      var s, c := ScanLine(line[..|line| - 1]), line[|line| - 1];
      if c == s.color then s.(len := s.len + 1) else Progress(s.done + [s.len], c, 1)
  }

  function Runs(line: seq<bool>): (r: seq<nat>)
    ensures |r| >= 1
  {
    ScanLine(line).done + [ScanLine(line).len]
  }

  /** The line that a list of runs stands for. */
  function Expand(runs: seq<nat>): seq<bool> {
    if runs == [] then [] else Expand(runs[..|runs| - 1]) + Solid(runs[|runs| - 1], |runs| % 2 == 0)
  }

  function Solid(n: nat, color: bool): (s: seq<bool>)
    ensures |s| == n
  {
    seq(n, _ => color)
  }

  lemma {:induction false} ExpandSnoc(runs: seq<nat>, run: nat)
    ensures Expand(runs + [run]) == Expand(runs) + Solid(run, |runs| % 2 == 1)
  {
    hide Solid;
    assert (runs + [run])[..|runs|] == runs;
  }

  lemma SolidSnoc(n: nat, color: bool)
    ensures Solid(n + 1, color) == Solid(n, color) + [color] && Solid(0, color) == []
  {
  }

  /** Only the first run may be empty, so that the runs are the maximal ones. */
  predicate Maximal(runs: seq<nat>) { forall i :: 1 <= i < |runs| ==> runs[i] >= 1 }

  lemma {:induction false} ScanLineIs(line: seq<bool>)
    ensures var s := ScanLine(line); Expand(Runs(line)) == line && Maximal(Runs(line)) && s.color == (|s.done| % 2 == 1)
  {
    hide Expand, Solid;
    if line == [] {
      ExpandSnoc([], 0); SolidSnoc(0, false);
      assert [] + [0] == [0];
      assert Expand([]) == [] by { ExpandEmpty(); }
    } else {
      var n := |line| - 1;
      ScanLineIs(line[..n]);
      var s := ScanLine(line[..n]);
      assert line == line[..n] + [line[n]];
      ExpandSnoc(s.done, s.len);
      if line[n] == s.color {
        ExpandSnoc(s.done, s.len + 1);
        SolidSnoc(s.len, s.color);
        assert Maximal(s.done + [s.len + 1]) by { MaximalLonger(s.done, s.len); }
      } else {
        ExpandSnoc(s.done + [s.len], 1);
        SolidSnoc(0, line[n]);
        assert Maximal(s.done + [s.len] + [1]);
      }
    }
  }

  lemma MaximalLonger(done: seq<nat>, len: nat)
    requires Maximal(done + [len])
    ensures Maximal(done + [len + 1])
  {
    var a, b := done + [len], done + [len + 1];
    forall i | 1 <= i < |b|
      ensures b[i] >= 1
    {
      assert a[i] >= 1;
    }
  }

  lemma ExpandEmpty()
    ensures Expand([]) == []
  {
  }

  /** The runs of a line expand to the line, and no two neighbouring runs could be joined. */
  lemma RunsAreMaximal(line: seq<bool>)
    ensures Expand(Runs(line)) == line && Maximal(Runs(line))
  {
    ScanLineIs(line);
  }

  /** The runs after one more module. */
  function Longer(runs: seq<nat>, c: bool): seq<nat>
    requires runs != []
  {
    var k := |runs| - 1;
    if c == (k % 2 == 1) then runs[..k] + [runs[k] + 1] else runs + [1]
  }

  lemma RunsSnoc(line: seq<bool>, c: bool)
    ensures Runs(line + [c]) == Longer(Runs(line), c)
  {
    assert (line + [c])[..|line|] == line;
    hide Expand, Maximal;
    ScanLineIs(line);
    var t, r := ScanLine(line), Runs(line);
    assert r[..|r| - 1] == t.done && r[|r| - 1] == t.len;
  }

  lemma Shorten(runs: seq<nat>) returns (shorter: seq<nat>, c: bool)
    requires runs != [] && Maximal(runs) && runs[|runs| - 1] > 0
    ensures shorter != [] && Maximal(shorter) && Longer(shorter, c) == runs && Expand(shorter) + [c] == Expand(runs)
  {
    hide Expand, Solid;
    var k := |runs| - 1;
    var done, last := runs[..k], runs[k];
    c := k % 2 == 1;
    assert runs == done + [last];
    ExpandSnoc(done, last); ExpandSnoc(done, last - 1);
    SolidSnoc(last - 1, c); SolidSnoc(0, c);
    shorter := if last == 1 && k > 0 then done else done + [last - 1];
    if shorter != done { assert shorter[..k] == done && shorter[k] == last - 1; }
  }

  /** There is only one way to write a line as maximal runs. */
  lemma {:induction false} RunsAreUnique(line: seq<bool>, runs: seq<nat>)
    requires runs != [] && Expand(runs) == line && Maximal(runs)
    ensures runs == Runs(line)
    decreases |line|
  {
    hide Solid, Longer;
    if runs[|runs| - 1] == 0 {
      assert |runs| == 1;
    } else {
      hide Expand, Runs;
      var shorter, c := Shorten(runs);
      RunsAreUnique(Expand(shorter), shorter);
      RunsSnoc(Expand(shorter), c);
    }
  }

  // ----- the score of long runs

  function RunScore(len: nat): nat { if len >= 5 then len - 2 else 0 }

  function RunsScore(runs: seq<nat>): nat {
    if runs == [] then 0 else RunsScore(runs[..|runs| - 1]) + RunScore(runs[|runs| - 1])
  }

  // ----- finder-like patterns

  /** The runs with a white border of `size` modules at both ends of the line. */
  function Bordered(runs: seq<nat>, size: nat): seq<nat>
    requires |runs| >= 1
  {
    var b := BorderFirst(runs, size);
    if |runs| % 2 == 0 then b + [size] else b[|b| - 1 := b[|b| - 1] + size]
  }

  function BorderFirst(runs: seq<nat>, size: nat): (b: seq<nat>)
    ensures |b| == |runs|
  {
    if runs == [] then [] else runs[0 := runs[0] + size]
  }

  /** Whether the five runs b, w, b, w, b ending before white run k have the widths 1:1:3:1:1. */
  predicate Core(runs: seq<nat>, k: nat)
    requires 6 <= k < |runs|
  {
    var n := runs[k - 1];
    n > 0 && runs[k - 2] == n && runs[k - 3] == 3 * n && runs[k - 4] == n && runs[k - 5] == n
  }

  /** The finder-like patterns ending at white run k: light space of four units on either side. */
  function Patterns(runs: seq<nat>, k: nat): (c: nat)
    requires k < |runs|
    ensures c <= 2
  {
    if k < 6 || !Core(runs, k) then 0
    else
      var n, after, before := runs[k - 1], runs[k], runs[k - 6];
      (if after >= 4 * n && before >= n then 1 else 0) + (if before >= 4 * n && after >= n then 1 else 0)
  }

  /** All patterns of a line; white runs have even indices. */
  function PatternSum(runs: seq<nat>): nat {
    if runs == [] then 0
    else PatternSum(runs[..|runs| - 1]) + if |runs| % 2 == 1 then Patterns(runs, |runs| - 1) else 0
  }

  /** The score of one row or column. */
  function LineScore(line: seq<bool>): nat {
    RunsScore(Runs(line)) + PENALTY_N3 * PatternSum(Bordered(Runs(line), |line|))
  }

  // ----- the run history

  type History = h: seq<nat> | |h| == 7 witness [0, 0, 0, 0, 0, 0, 0]

  /** The latest seven runs, the most recent first, with zeros for runs that do not exist. */
  function Latest(runs: seq<nat>): (h: History) {
    seq(7, i => if 0 <= i < |runs| then runs[|runs| - 1 - i] else 0)
  }

  function AddHistory(run: nat, h: History, size: nat): History {
    [if h[0] == 0 then run + size else run] + h[..6]
  }

  /** None is the "assertion error" of an impossible run length. */
  function CountPatterns(h: History, size: nat): Option<nat> {
    var n := h[1];
    if n > size * 3 then None
    else
      var core := n > 0 && h[2] == n && h[3] == n * 3 && h[4] == n && h[5] == n;
      Some((if core && h[0] >= n * 4 && h[6] >= n then 1 else 0) +
          (if core && h[6] >= n * 4 && h[0] >= n then 1 else 0))
  }

  predicate Positive(runs: seq<nat>) { forall i :: 0 <= i < |runs| ==> runs[i] >= 1 }

  lemma AddHistoryIs(runs: seq<nat>, run: nat, size: nat)
    requires Positive(runs)
    ensures AddHistory(run, Latest(runs), size) == Latest(runs + [if runs == [] then run + size else run])
  {
    var next := runs + [if runs == [] then run + size else run];
    var a, b := AddHistory(run, Latest(runs), size), Latest(next);
    forall i | 0 <= i < 7
      ensures a[i] == b[i]
    {
      if i > 0 && i <= |runs| { assert next[|next| - 1 - i] == runs[|runs| - i]; }
    }
  }

  /** Counting on the history after a white run is counting on the list of runs. */
  lemma CountPatternsIs(runs: seq<nat>, size: nat)
    requires |runs| % 2 == 1 && (|runs| >= 2 ==> runs[|runs| - 2] <= size * 3)
    ensures CountPatterns(Latest(runs), size) == Some(Patterns(runs, |runs| - 1))
  {
    var k, h := |runs| - 1, Latest(runs);
    if k >= 6 {
      assert h[0] == runs[k] && h[1] == runs[k - 1] && h[2] == runs[k - 2] && h[3] == runs[k - 3];
      assert h[4] == runs[k - 4] && h[5] == runs[k - 5] && h[6] == runs[k - 6];
    } else {
      assert h[6] == 0;
      assert k <= 4 ==> h[5] == 0;
      assert k == 0 ==> h[1] == 0;
    }
  }

  method TerminateAndCount(color: bool, len: nat, history: History, size: nat, ghost done: seq<nat>)
    returns (count: nat)
    requires size >= 1 && history == Latest(BorderFirst(done, size)) && Positive(BorderFirst(done, size))
    requires color == (|done| % 2 == 1) && (color ==> 1 <= len <= size)
    requires !color && done != [] ==> done[|done| - 1] <= size
    ensures PatternSum(Bordered(done + [len], size)) == PatternSum(BorderFirst(done, size)) + count
  {
    hide Latest, CountPatterns, Patterns, PatternSum, AddHistory;
    var h, run := history, len;
    ghost var adds := BorderFirst(done, size);
    ghost var all := Bordered(done + [len], size);
    if color {
      AddHistoryIs(adds, run, size);
      h := AddHistory(run, h, size);
      run := 0;
      adds := adds + [len];
      PatternSumSnoc(adds); assert adds[..|done|] == BorderFirst(done, size);
    }
    run := run + size;
    AddHistoryIs(adds, run, size);
    h := AddHistory(run, h, size);
    assert all == adds + [if adds == [] then run + size else run];
    PatternSumSnoc(all); assert all[..|all| - 1] == adds;
    CountPatternsIs(all, size);
    var c := CountPatterns(h, size);
    count := c.value;
  }

  lemma BorderFirstSnoc(done: seq<nat>, len: nat, size: nat)
    ensures BorderFirst(done + [len], size) == BorderFirst(done, size) + [if done == [] then len + size else len]
  {
  }

  lemma {:induction false} RunsBounded(line: seq<bool>)
    ensures ScanLine(line).len <= |line|
    ensures forall i :: 0 <= i < |ScanLine(line).done| ==> ScanLine(line).done[i] <= |line|
  {
    if line != [] { RunsBounded(line[..|line| - 1]); }
  }

  /** A run ends inside the line: it enters the history, and after a white run patterns are counted. */
  method EndRun(color: bool, run: nat, history: History, size: nat, ghost done: seq<nat>)
    returns (h: History, count: nat)
    requires size >= 1 && history == Latest(BorderFirst(done, size)) && Positive(BorderFirst(done, size))
    requires color == (|done| % 2 == 1) && (!color && done != [] ==> done[|done| - 1] <= size)
    ensures h == Latest(BorderFirst(done + [run], size))
    ensures PatternSum(BorderFirst(done + [run], size)) == PatternSum(BorderFirst(done, size)) + count
  {
    hide Latest, CountPatterns, Patterns, PatternSum, AddHistory;
    ghost var adds, next := BorderFirst(done, size), BorderFirst(done + [run], size);
    AddHistoryIs(adds, run, size);
    BorderFirstSnoc(done, run, size);
    h := AddHistory(run, history, size);
    count := 0;
    PatternSumSnoc(next); assert next[..|next| - 1] == adds;
    if !color {
      CountPatternsIs(next, size);
      var c := CountPatterns(h, size);
      count := c.value;
    }
  }

  /** The scan of one row or column computes its score, and its run history never trips the
      length assertion. */
  method LinePenalty(line: seq<bool>, size: nat) returns (result: nat)
    requires |line| == size >= 1
    ensures result == LineScore(line)
  {
    hide Latest, Positive, BorderFirst, PatternSum, RunsScore, ScanLine, Bordered;
    result := 0;
    var runColor, run := false, 0;
    var history: History := [0, 0, 0, 0, 0, 0, 0];
    EmptySums(size);
    ScanLineStep([], false);
    ghost var s := ScanLine(line[..0]);
    ghost var patterns := 0;
    for x := 0 to size
      invariant s == ScanLine(line[..x]) && s.color == runColor && s.len == run
      invariant history == Latest(BorderFirst(s.done, size)) && Positive(BorderFirst(s.done, size))
      invariant patterns == PatternSum(BorderFirst(s.done, size))
      invariant result == RunsScore(s.done) + RunScore(run) + PENALTY_N3 * patterns
    {
      assert line[..x + 1] == line[..x] + [line[x]];
      ScanLineStep(line[..x], line[x]);
      ScanColor(line[..x]); RunsBounded(line[..x]);
      if line[x] == runColor {
        run := run + 1;
        if run == 5 {
          result := result + PENALTY_N1;
        } else if run > 5 {
          result := result + 1;
        }
      } else {
        PositiveNext(line[..x], run, size);
        var count;
        history, count := EndRun(runColor, run, history, size, s.done);
        result := result + count * PENALTY_N3;
        patterns := patterns + count;
        RunsScoreSnoc(s.done, run);
        runColor := line[x];
        run := 1;
      }
      s := ScanLine(line[..x + 1]);
    }
    assert line[..size] == line;
    ScanColor(line); RunsBounded(line); LastRun(line);
    var count := TerminateAndCount(runColor, run, history, size, s.done);
    result := result + count * PENALTY_N3;
    RunsScoreSnoc(s.done, run);
  }

  lemma ScanColor(line: seq<bool>)
    ensures ScanLine(line).color == (|ScanLine(line).done| % 2 == 1)
  {
    ScanLineIs(line);
  }

  lemma ScanLineStep(line: seq<bool>, c: bool)
    ensures ScanLine([]) == Progress([], false, 0)
    ensures var s := ScanLine(line);
            ScanLine(line + [c]) == if c == s.color then s.(len := s.len + 1) else Progress(s.done + [s.len], c, 1)
  {
    assert (line + [c])[..|line|] == line;
  }

  lemma EmptySums(size: nat)
    ensures RunsScore([]) == 0 && PatternSum([]) == 0 && BorderFirst([], size) == [] && Positive([])
    ensures Latest([]) == [0, 0, 0, 0, 0, 0, 0]
  {
    assert Latest([]) == [0, 0, 0, 0, 0, 0, 0];
  }

  lemma RunsScoreSnoc(runs: seq<nat>, run: nat)
    ensures RunsScore(runs + [run]) == RunsScore(runs) + RunScore(run)
  {
    assert (runs + [run])[..|runs|] == runs;
  }

  lemma PatternSumSnoc(runs: seq<nat>)
    requires runs != []
    ensures PatternSum(runs)
         == PatternSum(runs[..|runs| - 1]) + if |runs| % 2 == 1 then Patterns(runs, |runs| - 1) else 0
  {
  }

  lemma LastRun(line: seq<bool>)
    ensures var s := ScanLine(line); s.done != [] ==> s.len >= 1
  {
    ScanLineIs(line);
    assert Runs(line)[|Runs(line)| - 1] == ScanLine(line).len;
  }

  lemma PositiveNext(line: seq<bool>, run: nat, size: nat)
    requires run == ScanLine(line).len && size >= 1
    ensures Positive(BorderFirst(ScanLine(line).done + [run], size))
  {
    ScanLineIs(line);
  }

  // ----- blocks, balance and the whole score

  function Column(g: Grid, n: nat, x: nat): (c: seq<bool>)
    requires Square(g, n) && x < n
    ensures |c| == n
  {
    seq(n, y requires 0 <= y < n => g[y][x])
  }

  ghost function RowSum(g: Grid, n: nat, k: nat): nat
    requires Square(g, n) && k <= n
  {
    if k == 0 then 0 else RowSum(g, n, k - 1) + LineScore(g[k - 1])
  }

  ghost function ColumnSum(g: Grid, n: nat, k: nat): nat
    requires Square(g, n) && k <= n
  {
    if k == 0 then 0 else ColumnSum(g, n, k - 1) + LineScore(Column(g, n, k - 1))
  }

  predicate IsBlock(g: Grid, n: nat, x: nat, y: nat)
    requires Square(g, n) && x + 1 < n && y + 1 < n
  {
    g[y][x] == g[y][x + 1] == g[y + 1][x] == g[y + 1][x + 1]
  }

  /** The top left corners of the 2*2 blocks of one colour. */
  ghost function BlockSet(g: Grid, n: nat): set<Pos>
    requires Square(g, n) && n > 0
  {
    set p | p in Cells(n - 1, n - 1) && IsBlock(g, n, p.x, p.y)
  }

  ghost function BlackSet(g: Grid, n: nat): set<Pos>
    requires Square(g, n)
  {
    set p | p in Cells(n, n) && g[p.y][p.x]
  }

  /** The balance term as the routine computes it. */
  function BalanceTerm(black: nat, total: nat): int
    requires total > 0
  {
    (Abs(black * 20 - total * 10) + total - 1) / total - 1
  }

  /** (45-5k)% <= black/total <= (55+5k)% */
  predicate Balanced(black: nat, total: nat, k: int) {
    (45 - 5 * k) * total <= 100 * black <= (55 + 5 * k) * total
  }

  lemma BalancedMeans(black: nat, total: nat, k: int)
    ensures Balanced(black, total, k) <==> Abs(black * 20 - total * 10) <= (k + 1) * total
  {
    assert (45 - 5 * k) * total == 50 * total - 5 * ((k + 1) * total);
    assert (55 + 5 * k) * total == 50 * total + 5 * ((k + 1) * total);
  }

  /** For an odd number of modules the balance term is the least k >= 0 that bounds the balance. */
  lemma BalanceIsLeast(black: nat, total: nat, k: nat)
    requires total % 2 == 1
    ensures BalanceTerm(black, total) >= 0
    ensures Balanced(black, total, k) <==> k >= BalanceTerm(black, total)
  {
    hide Balanced;
    var a := Abs(black * 20 - total * 10);
    assert a >= 1;
    BalancedMeans(black, total, k);
    CeilingDivision(a, total, k + 1);
    CeilingDivision(a, total, 0);
  }

  /** (a + t - 1) / t is the least m with a <= m * t. */
  lemma CeilingDivision(a: nat, t: nat, m: nat)
    requires t > 0
    ensures a <= m * t <==> m >= (a + t - 1) / t
  {
    var q := (a + t - 1) / t;
    assert a + t - 1 == q * t + (a + t - 1) % t;
    assert m >= q ==> m * t >= q * t;
    assert m < q ==> (m + 1) * t <= q * t;
    assert (m + 1) * t == m * t + t;
  }

  /** The penalty score of a grid. */
  ghost function Score(g: Grid, n: nat): int
    requires Square(g, n) && n > 0
  {
    RowSum(g, n, n) + ColumnSum(g, n, n) + PENALTY_N2 * |BlockSet(g, n)|
      + PENALTY_N4 * BalanceTerm(|BlackSet(g, n)|, n * n)
  }

  /** Row-major order: the positions before column x of row y, in rows of the given width. */
  predicate Before(p: Pos, x: nat, y: nat, width: nat) { p.x < width && (p.y < y || (p.y == y && p.x < x)) }

  method CountBlocks(g: Grid, n: nat) returns (count: nat)
    requires Square(g, n) && n > 0
    ensures count == |BlockSet(g, n)|
  {
    hide IsBlock;
    count := 0;
    ghost var seen: set<Pos> := {};
    for y := 0 to n - 1
      invariant count == |seen|
      invariant forall p :: p in seen <==> Before(p, 0, y, n - 1) && IsBlock(g, n, p.x, p.y)
    {
      for x := 0 to n - 1
        invariant count == |seen|
        invariant forall p :: p in seen <==> Before(p, x, y, n - 1) && IsBlock(g, n, p.x, p.y)
      {
        if IsBlock(g, n, x, y) {
          assert Pos(x, y) !in seen;
          seen := seen + {Pos(x, y)};
          count := count + 1;
        }
      }
    }
    assert seen == BlockSet(g, n);
  }

  method CountBlack(g: Grid, n: nat) returns (count: nat)
    requires Square(g, n)
    ensures count == |BlackSet(g, n)|
  {
    count := 0;
    ghost var seen: set<Pos> := {};
    for y := 0 to n
      invariant count == |seen|
      invariant forall p :: p in seen <==> Before(p, 0, y, n) && g[p.y][p.x]
    {
      for x := 0 to n
        invariant count == |seen|
        invariant forall p :: p in seen <==> Before(p, x, y, n) && g[p.y][p.x]
      {
        if g[y][x] {
          assert Pos(x, y) !in seen;
          seen := seen + {Pos(x, y)};
          count := count + 1;
        }
      }
    }
    assert seen == BlackSet(g, n);
  }

  method GetPenaltyScore(g: Grid, size: nat) returns (result: int)
    requires Square(g, size) && size > 0
    ensures result == Score(g, size)
  {
    hide LineScore, BlockSet, BlackSet, BalanceTerm;
    result := 0;
    for y := 0 to size
      invariant result == RowSum(g, size, y)
    {
      var line := LinePenalty(g[y], size);
      result := result + line;
    }
    for x := 0 to size
      invariant result == RowSum(g, size, size) + ColumnSum(g, size, x)
    {
      var line := LinePenalty(Column(g, size, x), size);
      result := result + line;
    }
    var blocks := CountBlocks(g, size);
    result := result + blocks * PENALTY_N2;
    var black := CountBlack(g, size);
    var k := BalanceTerm(black, size * size);
    result := result + k * PENALTY_N4;
  }

  // ----- the score is small

  lemma {:induction false} RunsScoreBound(line: seq<bool>)
    ensures RunsScore(ScanLine(line).done) + ScanLine(line).len <= |line|
    ensures |ScanLine(line).done| <= |line|
  {
    hide RunsScore;
    EmptySums(0);
    if line != [] {
      var n := |line| - 1;
      RunsScoreBound(line[..n]);
      var s := ScanLine(line[..n]);
      RunsScoreSnoc(s.done, s.len);
    }
  }

  lemma {:induction false} PatternSumBound(runs: seq<nat>)
    ensures PatternSum(runs) <= 2 * |runs|
  {
    hide Patterns;
    if runs != [] { PatternSumBound(runs[..|runs| - 1]); }
  }

  lemma LineScoreBound(line: seq<bool>)
    ensures LineScore(line) <= 81 * |line| + 160
  {
    hide ScanLine, RunsScore, PatternSum;
    var s := ScanLine(line);
    RunsScoreBound(line);
    RunsScoreSnoc(s.done, s.len);
    PatternSumBound(Bordered(Runs(line), |line|));
  }

  lemma {:induction false} SumsBound(g: Grid, n: nat, k: nat)
    requires Square(g, n) && k <= n
    ensures RowSum(g, n, k) <= k * (81 * n + 160) && ColumnSum(g, n, k) <= k * (81 * n + 160)
  {
    hide LineScore;
    if k > 0 {
      SumsBound(g, n, k - 1);
      LineScoreBound(g[k - 1]); LineScoreBound(Column(g, n, k - 1));
      assert k * (81 * n + 160) == (k - 1) * (81 * n + 160) + (81 * n + 160);
    }
  }
}
