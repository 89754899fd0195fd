/** The penalty score of the encoder, which counts runs and keeps a history of them, is the number of
    points that the standard gives for the modules. */
module PenaltyRules {
  import opened Pairs
  import opened Penalty
  import opened Standard
  import opened Zigzag

  // ----- adjacent modules

  /** The current run ends the line, and the module before it has the other colour. */
  lemma {:induction false} Trailing(line: seq<bool>)
    ensures var s := ScanLine(line);
            && s.len <= |line| && Uniform(line, |line| - s.len, |line|, s.color)
            && (s.len < |line| ==> line[|line| - s.len - 1] != s.color)
  {
    if line != [] { Trailing(line[..|line| - 1]); }
  }

  lemma {:induction false} AdjacentAre(line: seq<bool>)
    ensures RunsScore(ScanLine(line).done) + RunScore(ScanLine(line).len) == AdjacentPoints(line)
  {
    hide RunsScore, Uniform;
    EmptySums(0);
    if line != [] {
      var n := |line| - 1;
      AdjacentAre(line[..n]);
      var s := ScanLine(line[..n]);
      RunsScoreSnoc(s.done, s.len);
      LastFive(line);
    }
  }

  /** Whether the last module is the fifth or a further one of its colour. */
  lemma LastFive(line: seq<bool>)
    requires line != []
    ensures var n, s := |line|, ScanLine(line);
            && (Uniform(line, n - 5, n, line[n - 1]) <==> s.len >= 5)
            && (s.len >= 5 ==> (n > 5 && line[n - 6] == line[n - 1] <==> s.len > 5))
            && line[n - 1] == s.color
  {
    hide ScanLine;
    var n, s := |line|, ScanLine(line);
    Trailing(line); LastColour(line);
    if s.len < 5 <= n { assert line[n - s.len - 1] != line[n - 1]; }
  }

  lemma LastColour(line: seq<bool>)
    requires line != []
    ensures line[|line| - 1] == ScanLine(line).color && ScanLine(line).len >= 1
  {
  }

  // ----- the end of a line of runs

  /** The colour of the last of the given runs. */
  predicate LastIsDark(runs: seq<nat>) { |runs| % 2 == 0 }

  lemma ExpandLast(runs: seq<nat>)
    requires runs != []
    ensures var k := |runs| - 1;
            Expand(runs) == Expand(runs[..k]) + Solid(runs[k], LastIsDark(runs))
  {
  }

  lemma LastModule(runs: seq<nat>)
    requires runs != [] && Positive(runs)
    ensures var line := Expand(runs); line != [] && line[|line| - 1] == LastIsDark(runs)
  {
    hide Expand;
    ExpandLast(runs);
  }

  /** The line ends with modules of its last colour, as many as the last run has. */
  lemma EndsWith(runs: seq<nat>, m: nat, dark: bool)
    requires runs != [] && Positive(runs) && m >= 1
    ensures var n := |Expand(runs)|;
            Uniform(Expand(runs), n - m, n, dark) <==> dark == LastIsDark(runs) && m <= runs[|runs| - 1]
  {
    hide Expand;
    var line, k := Expand(runs), |runs| - 1;
    var n := |line|;
    ExpandLast(runs); LastModule(runs);
    if m > runs[k] && n >= m {
      if k > 0 {
        LastModule(runs[..k]);
        assert line[n - runs[k] - 1] == LastIsDark(runs[..k]);
      } else {
        assert Expand(runs[..0]) == [] by { ExpandEmpty(); }
      }
    }
  }

  /** The last m modules have the colour, and the module before them has the other one. */
  predicate Ends(line: seq<bool>, m: nat, dark: bool) {
    1 <= m < |line| && Uniform(line, |line| - m, |line|, dark) && line[|line| - m - 1] != dark
  }

  lemma EndsAre(runs: seq<nat>, m: nat, dark: bool)
    requires runs != [] && Positive(runs)
    ensures Ends(Expand(runs), m, dark) <==> |runs| >= 2 && dark == LastIsDark(runs) && m == runs[|runs| - 1]
  {
    hide Expand;
    var line, k := Expand(runs), |runs| - 1;
    ExpandLast(runs);
    if m >= 1 { EndsWith(runs, m, dark); }
    if k > 0 { LastModule(runs[..k]); } else { assert Expand(runs[..0]) == [] by { ExpandEmpty(); } }
  }

  lemma CutLast(runs: seq<nat>)
    requires runs != []
    ensures var k := |runs| - 1;
            |Expand(runs)| >= runs[k] && Expand(runs)[..|Expand(runs)| - runs[k]] == Expand(runs[..k])
  {
    hide Expand;
    ExpandLast(runs);
  }

  // ----- a pattern at the end of a line

  /** The line without its last m modules. */
  function Cut(line: seq<bool>, m: nat): seq<bool> { if m <= |line| then line[..|line| - m] else [] }

  /** The line ends with a pattern of unit n, with a light area before it. */
  predicate PatternEnds(line: seq<bool>, n: nat, before: nat) {
    && Ends(line, n, true) && Ends(Cut(line, n), n, false) && Ends(Cut(line, 2 * n), 3 * n, true)
    && Ends(Cut(line, 5 * n), n, false) && Ends(Cut(line, 6 * n), n, true)
    && Uniform(Cut(line, 7 * n), |line| - 7 * n - before, |line| - 7 * n, false)
  }

  lemma EndsCut(line: seq<bool>, c: nat, m: nat, dark: bool)
    requires m >= 1
    ensures Ends(Cut(line, c), m, dark) <==>
            |line| - c - m >= 1 && Uniform(line, |line| - c - m, |line| - c, dark) && line[|line| - c - m - 1] != dark
  {
  }

  lemma UniformCut(line: seq<bool>, c: nat, m: nat, dark: bool)
    ensures c <= |line| ==> (Uniform(Cut(line, c), |line| - c - m, |line| - c, dark) <==>
                             Uniform(line, |line| - c - m, |line| - c, dark))
  {
  }

  /** A pattern of the standard at the end of a line is made of areas that end there in turn. */
  lemma PatternEndsAre(line: seq<bool>, n: nat, before: nat)
    requires n >= 1 && before >= 1
    ensures FinderLike(line, |line| - 7 * n, n, before, 0) <==> PatternEnds(line, n, before)
  {
    hide Cut, Ends;
    assert Cut(line, 0) == line by { NoCut(line); }
    EndsCut(line, 0, n, true); EndsCut(line, n, n, false); EndsCut(line, 2 * n, 3 * n, true);
    EndsCut(line, 5 * n, n, false); EndsCut(line, 6 * n, n, true);
    UniformCut(line, 7 * n, before, false);
  }

  lemma NoCut(line: seq<bool>)
    ensures Cut(line, 0) == line
  {
  }

  /** The same in terms of runs: their widths, from the last one back. */
  predicate CoreRuns(runs: seq<nat>, n: nat, before: nat) {
    var k := |runs|;
    && k >= 6 && k % 2 == 0 && runs[k - 1] == n && runs[k - 2] == n && runs[k - 3] == 3 * n
    && runs[k - 4] == n && runs[k - 5] == n && runs[k - 6] >= before
  }

  lemma CutRuns(runs: seq<nat>, j: nat, c: nat)
    requires j <= |runs| && Cut(Expand(runs), c) == Expand(runs[..j]) && c <= |Expand(runs)| && j >= 1
    ensures var m := runs[j - 1]; c + m <= |Expand(runs)| && Cut(Expand(runs), c + m) == Expand(runs[..j - 1])
  {
    hide Expand;
    CutLast(runs[..j]);
    assert runs[..j][..j - 1] == runs[..j - 1];
    var line, m := Expand(runs), runs[j - 1];
    assert Cut(line, c)[..|line| - c - m] == Cut(line, c + m);
  }

  /** A pattern at the end of a line is a core of the last five runs, with space before it. */
  lemma PatternRuns(runs: seq<nat>, n: nat, before: nat)
    requires runs != [] && Positive(runs) && n >= 1 && before >= 1
    ensures PatternEnds(Expand(runs), n, before) <==> CoreRuns(runs, n, before)
  {
    hide Expand, Cut, Ends, Uniform;
    var line, k := Expand(runs), |runs|;
    assert runs[..k] == runs && Cut(line, 0) == line by { NoCut(line); }
    EndsAre(runs, n, true);
    if k >= 2 && k % 2 == 0 && runs[k - 1] == n {
      CutRuns(runs, k, 0); EndsAre(runs[..k - 1], n, false);
      if k >= 3 && runs[k - 2] == n {
        CutRuns(runs, k - 1, n); EndsAre(runs[..k - 2], 3 * n, true);
        if k >= 4 && runs[k - 3] == 3 * n {
          CutRuns(runs, k - 2, 2 * n);
          PatternRunsRest(runs, n, before);
        }
      }
    }
  }

  lemma PatternRunsRest(runs: seq<nat>, n: nat, before: nat)
    requires |runs| >= 4 && |runs| % 2 == 0 && Positive(runs) && n >= 1 && before >= 1
    requires 5 * n <= |Expand(runs)| && Cut(Expand(runs), 5 * n) == Expand(runs[..|runs| - 3])
    ensures var line, k := Expand(runs), |runs|;
            (&& Ends(Cut(line, 5 * n), n, false) && Ends(Cut(line, 6 * n), n, true)
             && Uniform(Cut(line, 7 * n), |line| - 7 * n - before, |line| - 7 * n, false)) <==>
            k >= 6 && runs[k - 4] == n && runs[k - 5] == n && runs[k - 6] >= before
  {
    hide Expand, Ends, Uniform;
    var line, k := Expand(runs), |runs|;
    EndsAre(runs[..k - 3], n, false);
    if k >= 6 && runs[k - 4] == n {
      CutRuns(runs, k - 3, 5 * n); EndsAre(runs[..k - 4], n, true);
      if runs[k - 5] == n {
        CutRuns(runs, k - 4, 6 * n); EndsWith(runs[..k - 5], before, false);
      }
    }
  }

  // ----- counting patterns

  /** The patterns with light areas of a units before and c units after them. */
  ghost function Likes(line: seq<bool>, a: nat, c: nat): (s: set<(int, int)>)
    ensures forall p, n :: (p, n) in s <==> n >= 1 && FinderLike(line, p, n, a * n, c * n)
  {
    set p, n: nat | 0 <= p <= |line| && 0 <= n <= |line| && FinderLike(line, p, n, a * n, c * n) :: (p, n)
  }

  /** A pattern in front of `extra` is in the line with it; a pattern that is not, ends in it. */
  lemma LikeInPrefix(line: seq<bool>, extra: seq<bool>, p: int, n: nat, before: nat, after: nat)
    ensures FinderLike(line, p, n, before, after) ==> FinderLike(line + extra, p, n, before, after)
    ensures p + 7 * n + after <= |line| ==>
      (FinderLike(line + extra, p, n, before, after) ==> FinderLike(line, p, n, before, after))
  {
    UniformInPrefix(line, extra);
  }

  lemma UniformInPrefix(line: seq<bool>, extra: seq<bool>)
    ensures forall from, to, dark :: Uniform(line, from, to, dark) ==> Uniform(line + extra, from, to, dark)
    ensures forall from, to, dark :: to <= |line| && Uniform(line + extra, from, to, dark) ==>
      Uniform(line, from, to, dark)
  {
    var longer := line + extra;
    forall from, to, dark | to <= |line| && Uniform(longer, from, to, dark)
      ensures Uniform(line, from, to, dark)
    {
      forall k | from <= k < to
        ensures line[k] == dark
      {
        assert longer[k] == dark;
      }
    }
  }

  /** A run of dark modules completes no pattern. */
  lemma DarkCompletesNone(line: seq<bool>, w: nat, p: int, n: nat, before: nat, after: nat)
    requires after >= 1
    ensures FinderLike(line + Solid(w, true), p, n, before, after) <==> FinderLike(line, p, n, before, after)
  {
    hide FinderLike;
    LikeInPrefix(line, Solid(w, true), p, n, before, after);
    if FinderLike(line + Solid(w, true), p, n, before, after) && p + 7 * n + after > |line| {
      LikeEndsLight(line + Solid(w, true), p, n, before, after);
      assert false;
    }
  }

  lemma LikeEndsLight(line: seq<bool>, p: int, n: nat, before: nat, after: nat)
    requires FinderLike(line, p, n, before, after)
    ensures n >= 1 && 0 <= p - before && p + 7 * n + after <= |line| && line[p + 7 * n - 1]
    ensures after >= 1 ==> !line[p + 7 * n + after - 1]
    ensures Uniform(line, p + 7 * n, p + 7 * n + after, false)
  {
  }

  /** A run of light modules after a dark one completes the patterns that end before it. */
  lemma LightCompletes(line: seq<bool>, w: nat, p: int, n: nat, before: nat, after: nat)
    requires after >= 1 && line != [] && line[|line| - 1]
    ensures FinderLike(line + Solid(w, false), p, n, before, after) <==>
            || FinderLike(line, p, n, before, after)
            || (p + 7 * n == |line| && after <= w && FinderLike(line, p, n, before, 0))
  {
    hide FinderLike;
    var longer := line + Solid(w, false);
    LikeInPrefix(line, Solid(w, false), p, n, before, after);
    LikeInPrefix(line, Solid(w, false), p, n, before, 0);
    if FinderLike(longer, p, n, before, after) && p + 7 * n + after > |line| {
      LikeEndsLight(longer, p, n, before, after);
      assert longer[|line| - 1];
      assert p + 7 * n == |line|;
      LikeBefore(longer, p, n, before, after);
    }
    if p + 7 * n == |line| && after <= w && FinderLike(line, p, n, before, 0) {
      LikeFollowed(longer, p, n, before, after);
    }
  }

  lemma LikeBefore(line: seq<bool>, p: int, n: nat, before: nat, after: nat)
    requires FinderLike(line, p, n, before, after)
    ensures FinderLike(line, p, n, before, 0)
  {
  }

  lemma LikeFollowed(line: seq<bool>, p: int, n: nat, before: nat, after: nat)
    requires FinderLike(line, p, n, before, 0) && Uniform(line, p + 7 * n, p + 7 * n + after, false)
    ensures FinderLike(line, p, n, before, after)
  {
  }

  /** The pattern that the last run of a list completes, if it is a light one. */
  predicate Completes(runs: seq<nat>, a: nat, c: nat)
    requires runs != []
  {
    var k := |runs| - 1;
    k >= 6 && k % 2 == 0 && Core(runs, k) && runs[k - 6] >= a * runs[k - 1] && runs[k] >= c * runs[k - 1]
  }

  /** The last run adds the pattern that it completes, and no other. */
  lemma LikesGrow(runs: seq<nat>, a: nat, c: nat)
    requires runs != [] && Positive(runs) && a >= 1 && c >= 1
    ensures |Likes(Expand(runs), a, c)|
         == |Likes(Expand(runs[..|runs| - 1]), a, c)| + if Completes(runs, a, c) then 1 else 0
  {
    hide Expand, Likes, Completes;
    var k := |runs| - 1;
    var line, w := Expand(runs[..k]), runs[k];
    ExpandLast(runs);
    if k % 2 == 1 {
      DarkLikes(line, w, a, c);
      NotCompleted(runs, a, c);
    } else if k == 0 {
      assert line == [] by { ExpandEmpty(); }
      LightLikes(w, a, c);
      NotCompleted(runs, a, c);
    } else {
      LastModule(runs[..k]);
      LightAdds(runs, a, c);
    }
  }

  lemma NotCompleted(runs: seq<nat>, a: nat, c: nat)
    requires runs != [] && (|runs| % 2 == 0 || |runs| == 1)
    ensures !Completes(runs, a, c)
  {
  }

  lemma DarkLikes(line: seq<bool>, w: nat, a: nat, c: nat)
    requires c >= 1
    ensures Likes(line + Solid(w, true), a, c) == Likes(line, a, c)
  {
    var longer := line + Solid(w, true);
    forall p, n | true
      ensures (p, n) in Likes(longer, a, c) <==> (p, n) in Likes(line, a, c)
    {
      if n >= 1 { Grows(c, n); DarkCompletesNone(line, w, p, n, a * n, c * n); }
    }
    SamePairs(Likes(longer, a, c), Likes(line, a, c));
  }

  lemma Grows(c: nat, n: nat)
    requires c >= 1 && n >= 1
    ensures c * n >= 1
  {
  }

  lemma LightLikes(w: nat, a: nat, c: nat)
    ensures Likes([] + Solid(w, false), a, c) == Likes([], a, c)
  {
    var light := [] + Solid(w, false);
    forall p, n | n >= 1 && FinderLike(light, p, n, a * n, c * n)
      ensures false
    {
      LikeEndsLight(light, p, n, a * n, c * n);
    }
    SamePairs(Likes(light, a, c), Likes([], a, c));
  }

  /** What a light run after a dark one completes. */
  lemma LightAdd(runs: seq<nat>, a: nat, c: nat, p: int, n: nat)
    requires |runs| >= 3 && |runs| % 2 == 1 && Positive(runs) && a >= 1 && c >= 1 && n >= 1
    ensures var k := |runs| - 1;
            var line := Expand(runs[..k]);
            FinderLike(line + Solid(runs[k], false), p, n, a * n, c * n) <==>
            || FinderLike(line, p, n, a * n, c * n)
            || (p + 7 * n == |line| && Completes(runs, a, c) && n == runs[k - 1])
  {
    hide Expand, FinderLike, PatternEnds;
    var k := |runs| - 1;
    var line := Expand(runs[..k]);
    Grows(a, n); Grows(c, n);
    LastModule(runs[..k]);
    LightCompletes(line, runs[k], p, n, a * n, c * n);
    PatternEndsAre(line, n, a * n);
    PatternRuns(runs[..k], n, a * n);
    CoreCompletes(runs, a, c, n);
  }

  lemma CoreCompletes(runs: seq<nat>, a: nat, c: nat, n: nat)
    requires |runs| >= 3 && |runs| % 2 == 1 && n >= 1
    ensures var k := |runs| - 1;
            CoreRuns(runs[..k], n, a * n) && c * n <= runs[k] <==> Completes(runs, a, c) && n == runs[k - 1]
  {
  }

  lemma LightAdds(runs: seq<nat>, a: nat, c: nat)
    requires |runs| >= 3 && |runs| % 2 == 1 && Positive(runs) && a >= 1 && c >= 1
    ensures var line := Expand(runs[..|runs| - 1]);
            |Likes(line + Solid(runs[|runs| - 1], false), a, c)|
              == |Likes(line, a, c)| + if Completes(runs, a, c) then 1 else 0
  {
    hide Expand, FinderLike, Completes;
    var k := |runs| - 1;
    var line, n := Expand(runs[..k]), runs[k - 1];
    var s, t, added := Likes(line, a, c), Likes(line + Solid(runs[k], false), a, c), (|line| - 7 * n, n);
    forall p, m | true
      ensures (p, m) in t <==> (p, m) in s || (Completes(runs, a, c) && (p, m) == added)
    {
      if m >= 1 { LightAdd(runs, a, c, p, m); }
    }
    if Completes(runs, a, c) {
      SamePairs(t, s + {added});
      assert added !in s by { NotBefore(line, added.0, n, a, c); }
    } else {
      SamePairs(t, s);
    }
  }

  lemma NotBefore(line: seq<bool>, p: int, n: nat, a: nat, c: nat)
    requires p + 7 * n == |line| && c >= 1
    ensures !(n >= 1 && FinderLike(line, p, n, a * n, c * n))
  {
    if n >= 1 { Grows(c, n); }
  }

  lemma PatternsComplete(runs: seq<nat>)
    requires runs != []
    ensures (if |runs| % 2 == 1 then Patterns(runs, |runs| - 1) else 0)
         == (if Completes(runs, 1, 4) then 1 else 0) + if Completes(runs, 4, 1) then 1 else 0
  {
  }

  /** The patterns that are counted on a list of runs are those of its modules. */
  lemma {:induction false} PatternsAre(runs: seq<nat>)
    requires Positive(runs)
    ensures PatternSum(runs) == |Likes(Expand(runs), 1, 4)| + |Likes(Expand(runs), 4, 1)|
  {
    hide Likes, Patterns, Completes, Expand;
    if runs == [] {
      ExpandEmpty();
      NoLikes(1, 4); NoLikes(4, 1);
    } else {
      var k := |runs| - 1;
      PatternsAre(runs[..k]);
      LikesGrow(runs, 1, 4); LikesGrow(runs, 4, 1);
      PatternsComplete(runs);
    }
  }

  lemma NoLikes(a: nat, c: nat)
    ensures Likes([], a, c) == {}
  {
    SamePairs(Likes([], a, c), {});
  }

  // ----- one row or column

  lemma SolidJoin(m: nat, n: nat, dark: bool)
    ensures Solid(m, dark) + Solid(n, dark) == Solid(m + n, dark)
  {
  }

  lemma {:induction false} ExpandBorderFirst(runs: seq<nat>, size: nat)
    requires runs != []
    ensures Expand(BorderFirst(runs, size)) == Solid(size, false) + Expand(runs)
  {
    hide Expand, Solid;
    var k, b := |runs| - 1, BorderFirst(runs, size);
    ExpandLast(runs); ExpandLast(b);
    if k == 0 {
      assert runs[..0] == [] && b[..0] == [];
      ExpandEmpty();
      SolidJoin(size, runs[0], false);
    } else {
      ExpandBorderFirst(runs[..k], size);
      assert b[..k] == BorderFirst(runs[..k], size);
    }
  }

  lemma ExpandBordered(runs: seq<nat>, size: nat)
    requires runs != []
    ensures Expand(Bordered(runs, size)) == Solid(size, false) + Expand(runs) + Solid(size, false)
  {
    hide Expand, Solid, BorderFirst;
    var b, all := BorderFirst(runs, size), Bordered(runs, size);
    var k := |b| - 1;
    ExpandBorderFirst(runs, size);
    ExpandLast(all);
    if |runs| % 2 == 0 {
      assert all[..|all| - 1] == b;
    } else {
      ExpandLast(b);
      assert all[..k] == b[..k];
      SolidJoin(b[k], size, false);
    }
  }

  lemma BorderedPositive(runs: seq<nat>, size: nat)
    requires runs != [] && Maximal(runs) && size >= 1
    ensures Positive(Bordered(runs, size))
  {
  }

  lemma LikesAre(line: seq<bool>)
    ensures Likes(line, 1, 4) == FollowedByLight(line) && Likes(line, 4, 1) == PrecededByLight(line)
  {
    hide FinderLike;
    SamePairs(Likes(line, 1, 4), FollowedByLight(line));
    SamePairs(Likes(line, 4, 1), PrecededByLight(line));
  }

  /** The score of a row or column. */
  lemma LineScoreIs(line: seq<bool>)
    requires line != []
    ensures LineScore(line) == LinePoints(line)
  {
    hide Expand, ScanLine, RunsScore, RunScore, PatternSum, Bordered, Positive, Maximal, AdjacentPoints,
         FollowedByLight, PrecededByLight, Likes;
    var runs, s := Runs(line), ScanLine(line);
    RunsAreMaximal(line);
    RunsScoreSnoc(s.done, s.len);
    AdjacentAre(line);
    BorderedPositive(runs, |line|);
    ExpandBordered(runs, |line|);
    var wide := WithSurroundings(line);
    assert Expand(Bordered(runs, |line|)) == wide;
    PatternsAre(Bordered(runs, |line|));
    LikesAre(wide);
  }

  // ----- the whole symbol

  lemma {:induction false} SumsAre(g: Grid, n: nat, k: nat)
    requires Square(g, n) && k <= n && n >= 1
    ensures RowSum(g, n, k) == RowPoints(g, n, k) && ColumnSum(g, n, k) == ColumnPoints(g, n, k)
  {
    hide LineScore, LinePoints;
    if k > 0 {
      SumsAre(g, n, k - 1);
      LineScoreIs(g[k - 1]); LineScoreIs(Column(g, n, k - 1));
      assert Column(g, n, k - 1) == seq(n, i requires 0 <= i < n => g[i][k - 1]);
    }
  }

  /** Positions and pairs of row and column correspond. */
  lemma {:induction false} SameNumber(s: set<Pos>, t: set<(int, int)>)
    requires forall p :: p in s ==> (p.y, p.x) in t
    requires forall x :: x in t ==> 0 <= x.0 && 0 <= x.1 && Pos(x.1, x.0) in s
    ensures |s| == |t|
    decreases t
  {
    if t == {} {
      assert s == {};
    } else {
      var x :| x in t;
      var p := Pos(x.1, x.0);
      SameNumber(s - {p}, t - {x});
    }
  }

  lemma SquaresAre(g: Grid, n: nat)
    requires Square(g, n) && n >= 1
    ensures |BlockSet(g, n)| == |Squares(g, n)| && |BlackSet(g, n)| == |DarkModules(g, n)|
  {
    SameNumber(BlockSet(g, n), Squares(g, n));
    SameNumber(BlackSet(g, n), DarkModules(g, n));
  }

  lemma ShareIs(g: Grid, n: nat, k: nat)
    requires Square(g, n) && n >= 1
    ensures ShareWithin(g, n, k) <==> Balanced(|BlackSet(g, n)|, n * n, k)
  {
    hide BlackSet, DarkModules, BlockSet, Squares;
    SquaresAre(g, n);
    assert 50 - 5 * (k + 1) == 45 - 5 * k && 50 + 5 * (k + 1) == 55 + 5 * k;
  }

  lemma OddSquare(n: nat)
    requires n % 2 == 1
    ensures n * n % 2 == 1
  {
    var h := n / 2;
    assert n * n == 2 * (2 * h * h + 2 * h) + 1;
  }

  /** The penalty score of a symbol, whose size is odd, is its number of points by the standard. */
  lemma ScoreIsStandard(g: Grid, n: nat, points: int)
    requires Square(g, n) && n % 2 == 1
    ensures HasPoints(g, n, points) <==> points == Score(g, n)
  {
    hide BlackSet, BlockSet, Squares, ShareWithin, Balanced, RowSum, ColumnSum, RowPoints, ColumnPoints, BalanceTerm;
    SumsAre(g, n, n); SquaresAre(g, n); OddSquare(n);
    var black := |BlackSet(g, n)|;
    BalanceIsLeast(black, n * n, 0);
    var least: nat := BalanceTerm(black, n * n);
    forall k: nat
      ensures ShareWithin(g, n, k) <==> k >= least
    {
      ShareIs(g, n, k); BalanceIsLeast(black, n * n, k);
    }
    var rest := RowPoints(g, n, n) + ColumnPoints(g, n, n) + 3 * |Squares(g, n)|;
    assert LeastShare(g, n, least);
    assert Score(g, n) == rest + 10 * least;
    if HasPoints(g, n, points) {
      var k: nat :| LeastShare(g, n, k) && points == rest + 10 * k;
      assert k == least;
    }
  }
}
