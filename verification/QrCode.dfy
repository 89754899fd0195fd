/** The symbol: drawing function patterns and codewords, masking, and the automatic mask choice. */
module QrCodes {
  import opened Gf256
  import opened BitBuffers
  import opened Zigzag
  import opened Penalty
  import opened Versions
  import opened Interleaver
  import opened Wrappers
  import opened FunctionPatterns
  import opened MaskChoice
  import opened Conformance
  import opened Standard
  import opened Integers

  class QrCode {
    const version: nat
    const size: nat
    const ecc: Ecc
    var mask: int
    var modules: Grid
    var isFunction: Grid

    ghost predicate Valid()
      reads this
    {
      IsVersion(version) && size == SizeOf(version) && Square(modules, size) && Square(isFunction, size)
    }

    /** A white symbol without function modules. */
    constructor (version: nat, ecc: Ecc)
      requires IsVersion(version)
      ensures Valid() && this.version == version && this.ecc == ecc
      ensures modules == Blank(size) && isFunction == Blank(size)
    {
      this.version := version;
      this.ecc := ecc;
      size := version * 4 + 17;
      mask := -1;
      modules := Blank(version * 4 + 17);
      isFunction := Blank(version * 4 + 17);
    }

    method SetFunctionModule(x: nat, y: nat, isBlack: bool)
      requires Valid() && x < size && y < size
      modifies this`modules, this`isFunction
      ensures Valid()
      ensures modules == Set(old(modules), size, Pos(x, y), isBlack)
      ensures isFunction == Set(old(isFunction), size, Pos(x, y), true)
    {
      modules := modules[y := modules[y][x := isBlack]];
      isFunction := isFunction[y := isFunction[y][x := true]];
    }

    method SetModule(x: nat, y: nat, isBlack: bool)
      requires Valid() && x < size && y < size
      modifies this`modules
      ensures Valid() && modules == Set(old(modules), size, Pos(x, y), isBlack)
    {
      modules := modules[y := modules[y][x := isBlack]];
    }

    /** A finder pattern with its separator, clipped to the symbol. */
    method DrawFinderPattern(cx: int, cy: int)
      requires Valid()
      modifies this`modules, this`isFunction
      ensures Valid()
      ensures modules == Stamp(old(modules), size, cx, cy, 4, FinderRings)
      ensures isFunction == Stamp(old(isFunction), size, cx, cy, 4, Marked)
    {
      hide StampUpTo, Stamp, Set;
      ghost var m, f := modules, isFunction;
      StampEnds(m, size, cx, cy, 4, FinderRings, 0); StampEnds(f, size, cx, cy, 4, Marked, 0);
      for dy := -4 to 5
        invariant Valid()
        invariant modules == StampUpTo(m, size, cx, cy, 4, FinderRings, -4, dy)
        invariant isFunction == StampUpTo(f, size, cx, cy, 4, Marked, -4, dy)
      {
        for dx := -4 to 5
          invariant Valid()
          invariant modules == StampUpTo(m, size, cx, cy, 4, FinderRings, dx, dy)
          invariant isFunction == StampUpTo(f, size, cx, cy, 4, Marked, dx, dy)
        {
          StampStep(m, size, cx, cy, 4, FinderRings, dx, dy); StampStep(f, size, cx, cy, 4, Marked, dx, dy);
          var dist := Max(Abs(dx), Abs(dy));
          var xx, yy := cx + dx, cy + dy;
          if 0 <= xx < size && 0 <= yy < size {
            SetFunctionModule(xx, yy, dist != 2 && dist != 4);
          }
        }
        StampEnds(m, size, cx, cy, 4, FinderRings, dy); StampEnds(f, size, cx, cy, 4, Marked, dy);
      }
    }

    /** An alignment pattern, which lies inside the symbol. */
    method DrawAlignmentPattern(cx: nat, cy: nat)
      requires Valid() && 2 <= cx < size - 2 && 2 <= cy < size - 2
      modifies this`modules, this`isFunction
      ensures Valid()
      ensures modules == Stamp(old(modules), size, cx, cy, 2, AlignmentRings)
      ensures isFunction == Stamp(old(isFunction), size, cx, cy, 2, Marked)
    {
      hide StampUpTo, Stamp, Set;
      ghost var m, f := modules, isFunction;
      StampEnds(m, size, cx, cy, 2, AlignmentRings, 0); StampEnds(f, size, cx, cy, 2, Marked, 0);
      for dy := -2 to 3
        invariant Valid()
        invariant modules == StampUpTo(m, size, cx, cy, 2, AlignmentRings, -2, dy)
        invariant isFunction == StampUpTo(f, size, cx, cy, 2, Marked, -2, dy)
      {
        for dx := -2 to 3
          invariant Valid()
          invariant modules == StampUpTo(m, size, cx, cy, 2, AlignmentRings, dx, dy)
          invariant isFunction == StampUpTo(f, size, cx, cy, 2, Marked, dx, dy)
        {
          StampStep(m, size, cx, cy, 2, AlignmentRings, dx, dy); StampStep(f, size, cx, cy, 2, Marked, dx, dy);
          SetFunctionModule(cx + dx, cy + dy, Max(Abs(dx), Abs(dy)) != 1);
        }
        StampEnds(m, size, cx, cy, 2, AlignmentRings, dy); StampEnds(f, size, cx, cy, 2, Marked, dy);
      }
    }

    /** Both timing patterns. */
    method DrawTimingPatterns()
      requires Valid()
      modifies this`modules, this`isFunction
      ensures Valid()
      ensures modules == Timing(old(modules), size, false) && isFunction == Timing(old(isFunction), size, true)
    {
      hide TimingUpTo, Set;
      ghost var m, f := modules, isFunction;
      TimingStep(m, size, false, 0); TimingStep(f, size, true, 0);
      for i := 0 to size
        invariant Valid()
        invariant modules == TimingUpTo(m, size, false, i) && isFunction == TimingUpTo(f, size, true, i)
      {
        TimingStep(m, size, false, i); TimingStep(f, size, true, i);
        SetFunctionModule(6, i, i % 2 == 0);
        SetFunctionModule(i, 6, i % 2 == 0);
      }
    }

    /** The alignment positions in ascending order. */
    method GetAlignmentPatternPositions() returns (result: seq<int>)
      requires Valid()
      ensures result == AlignPositions(version)
    {
      hide AlignStep;
      if version == 1 { return []; }
      var numAlign := version / 7 + 2;
      var step := if version == 32 then 26 else (version * 4 + numAlign * 2 + 1) / (numAlign * 2 - 2) * 2;
      assert step == AlignStep(version) by { AlignStepIs(version); }
      result := [];
      var pos: int := size - 7;
      for i := 0 to numAlign - 1
        invariant |result| == i && pos == size - 7 - i * step
        invariant forall k :: 0 <= k < i ==> result[k] == AlignAt(version, numAlign - i + k)
      {
        result := [pos] + result;
        pos := pos - step;
        assert (i + 1) * step == i * step + step;
      }
      result := [6] + result;
    }

    /** All alignment patterns except the three on finder patterns. */
    method DrawAlignmentPatterns()
      requires Valid()
      modifies this`modules, this`isFunction
      ensures Valid()
      ensures modules == Alignments(old(modules), version, AlignCount(version), 0, AlignmentRings)
      ensures isFunction == Alignments(old(isFunction), version, AlignCount(version), 0, Marked)
    {
      hide Stamp, AlignStep, AlignAt;
      ghost var m, f := modules, isFunction;
      var alignPatPos := GetAlignmentPatternPositions();
      var numAlign := |alignPatPos|;
      for i := 0 to numAlign
        invariant Valid()
        invariant modules == Alignments(m, version, i, 0, AlignmentRings)
        invariant isFunction == Alignments(f, version, i, 0, Marked)
      {
        for j := 0 to numAlign
          invariant Valid()
          invariant modules == Alignments(m, version, i, j, AlignmentRings)
          invariant isFunction == Alignments(f, version, i, j, Marked)
        {
          if !((i == 0 && j == 0) || (i == 0 && j == numAlign - 1) || (i == numAlign - 1 && j == 0)) {
            AlignmentInside(version, i); AlignmentInside(version, j);
            DrawAlignmentPattern(alignPatPos[i], alignPatPos[j]);
          }
        }
      }
    }

    /** The format bits with their error correction; the range check never fails. */
    method ComputeFormatBits(msk: nat) returns (bits: nat)
      requires msk < 8
      ensures bits == FormatValue(ecc, msk) && bits < 0x8000
    {
      hide Bch.XorNat, FormatLevel;
      var data := FormatLevel(ecc) * 8 + msk;
      var rem := data;
      assert Pow2(9) == 512 by { Widths(); }
      for i := 0 to 10
        invariant rem == Bch.Division(data, FORMAT_GENERATOR, 10, i)
      {
        rem := Bch.XorNat(rem * 2, rem / 512 * 0x537);
      }
      bits := Bch.XorNat(data * 1024 + rem, 0x5412);
      FormatFits(ecc, msk);
      assert bits / 0x8000 == 0;
    }

    /** Two copies of the format bits, and the module that is always black. */
    method DrawFormatBits(msk: nat)
      requires Valid() && msk < 8
      modifies this`modules, this`isFunction
      ensures Valid()
      ensures modules == WithFormat(old(modules), size, FormatBits(ecc, msk))
      ensures isFunction == MarkFormat(old(isFunction), size)
    {
      hide FormatUpTo, Set, WithFormat, FormatBits;
      var value := ComputeFormatBits(msk);
      var bits := Bits(value, 15);
      FormatBitsAre(ecc, msk);
      ghost var m, f := modules, isFunction;
      FormatEnds(m, size, bits); FormatEnds(f, size, AllSet(15));
      DrawFirstCopy(bits, m, f);
      DrawSecondCopy(bits, m, f);
    }

    method DrawFirstCopy(bits: seq<bool>, ghost m: Grid, ghost f: Grid)
      requires Valid() && |bits| == 15 && Square(m, size) && Square(f, size)
      requires modules == FormatUpTo(m, size, bits, 0, 0) && isFunction == FormatUpTo(f, size, AllSet(15), 0, 0)
      modifies this`modules, this`isFunction
      ensures Valid()
      ensures modules == FormatUpTo(m, size, bits, 15, 0) && isFunction == FormatUpTo(f, size, AllSet(15), 15, 0)
    {
      hide FormatUpTo, Set;
      ghost var set15 := AllSet(15);
      for i := 0 to 6
        invariant Valid() && modules == FormatUpTo(m, size, bits, i, 0)
        invariant isFunction == FormatUpTo(f, size, set15, i, 0)
      {
        FormatFirstStep(m, size, bits, i); FormatFirstStep(f, size, set15, i);
        SetFunctionModule(8, i, bits[14 - i]);
      }
      FormatFirstStep(m, size, bits, 6); FormatFirstStep(f, size, set15, 6);
      SetFunctionModule(8, 7, bits[14 - 6]);
      FormatFirstStep(m, size, bits, 7); FormatFirstStep(f, size, set15, 7);
      SetFunctionModule(8, 8, bits[14 - 7]);
      FormatFirstStep(m, size, bits, 8); FormatFirstStep(f, size, set15, 8);
      SetFunctionModule(7, 8, bits[14 - 8]);
      for i := 9 to 15
        invariant Valid() && modules == FormatUpTo(m, size, bits, i, 0)
        invariant isFunction == FormatUpTo(f, size, set15, i, 0)
      {
        FormatFirstStep(m, size, bits, i); FormatFirstStep(f, size, set15, i);
        SetFunctionModule(14 - i, 8, bits[14 - i]);
      }
    }

    method DrawSecondCopy(bits: seq<bool>, ghost m: Grid, ghost f: Grid)
      requires Valid() && |bits| == 15 && Square(m, size) && Square(f, size)
      requires modules == FormatUpTo(m, size, bits, 15, 0) && isFunction == FormatUpTo(f, size, AllSet(15), 15, 0)
      modifies this`modules, this`isFunction
      ensures Valid()
      ensures modules == FormatUpTo(m, size, bits, 15, 16) && isFunction == FormatUpTo(f, size, AllSet(15), 15, 16)
    {
      hide FormatUpTo, Set;
      ghost var set15 := AllSet(15);
      for i := 0 to 8
        invariant Valid() && modules == FormatUpTo(m, size, bits, 15, i)
        invariant isFunction == FormatUpTo(f, size, set15, 15, i)
      {
        FormatSecondStep(m, size, bits, i); FormatSecondStep(f, size, set15, i);
        SetFunctionModule(size - 1 - i, 8, bits[14 - i]);
      }
      for i := 8 to 15
        invariant Valid() && modules == FormatUpTo(m, size, bits, 15, i)
        invariant isFunction == FormatUpTo(f, size, set15, 15, i)
      {
        FormatSecondStep(m, size, bits, i); FormatSecondStep(f, size, set15, i);
        SetFunctionModule(8, size - 15 + i, bits[14 - i]);
      }
      FormatSecondStep(m, size, bits, 15); FormatSecondStep(f, size, set15, 15);
      SetFunctionModule(8, size - 8, true);
    }

    /** The version bits with their error correction; the range check never fails. */
    method ComputeVersionBits() returns (bits: nat)
      requires IsVersion(version)
      ensures bits == VersionValue(version) && bits < 0x40000
    {
      hide Bch.XorNat;
      var rem := version;
      assert Pow2(11) == 2048 by { Widths(); }
      for i := 0 to 12
        invariant rem == Bch.Division(version, VERSION_GENERATOR, 12, i)
      {
        rem := Bch.XorNat(rem * 2, rem / 2048 * 0x1F25);
      }
      bits := version * 4096 + rem;
      VersionFitsBits(version, 12);
      assert bits / 0x40000 == 0;
    }

    /** Two copies of the version bits, from version 7 on. */
    method DrawVersion()
      requires Valid()
      modifies this`modules, this`isFunction
      ensures Valid()
      ensures version < 7 ==> modules == old(modules) && isFunction == old(isFunction)
      ensures version >= 7 ==> modules == WithVersion(old(modules), size, VersionBits(version))
      ensures version >= 7 ==> isFunction == WithVersion(old(isFunction), size, AllSet(18))
    {
      hide VersionUpTo, Set, Bits;
      if version < 7 { return; }
      var value := ComputeVersionBits();
      var bits := Bits(value, 18);
      ghost var m, f, set18 := modules, isFunction, AllSet(18);
      VersionStart(m, size, bits); VersionStart(f, size, set18);
      for i := 0 to 18
        invariant Valid() && modules == VersionUpTo(m, size, bits, i) && isFunction == VersionUpTo(f, size, set18, i)
      {
        VersionStep(m, size, bits, i); VersionStep(f, size, set18, i);
        var a, b := size - 11 + i % 3, i / 3;
        SetFunctionModule(a, b, bits[17 - i]);
        SetFunctionModule(b, a, bits[17 - i]);
      }
    }

    /** Draws and marks all function modules. */
    method DrawFunctionPatterns()
      requires Valid() && modules == Blank(size) && isFunction == Blank(size)
      modifies this`modules, this`isFunction
      ensures Valid()
      ensures modules == PatternGrid(version, FormatBits(ecc, 0)) && isFunction == FunctionGrid(version)
    {
      hide Timing, Stamp, Alignments, WithFormat, WithVersion, FormatBits, VersionBits, Blank;
      DrawTimingPatterns();
      DrawFinderPattern(3, 3);
      DrawFinderPattern(size - 4, 3);
      DrawFinderPattern(3, size - 4);
      DrawAlignmentPatterns();
      DrawFormatBits(0);
      DrawVersion();
    }

    /** XORs the modules that are not function modules with a mask; refuses an index out of range. */
    method ApplyMask(msk: int) returns (ok: bool)
      requires Valid()
      modifies this`modules
      ensures Valid()
      ensures ok <==> 0 <= msk <= 7
      ensures modules == if ok then Masked(old(modules), isFunction, size, msk) else old(modules)
      ensures ok ==> Inverted(old(modules), modules, isFunction, size, msk)
    {
      hide Inverts, MaskedUpTo, Masked, Set, Get, Square, SizeOf, IsVersion, Inverted;
      if msk < 0 || msk > 7 { return false; }
      ghost var m := modules;
      MaskEnds(m, isFunction, size, msk, 0);
      for y := 0 to size
        invariant Valid() && modules == MaskedUpTo(m, isFunction, size, msk, 0, y)
      {
        for x := 0 to size
          invariant Valid() && modules == MaskedUpTo(m, isFunction, size, msk, x, y)
        {
          MaskStep(m, isFunction, size, msk, x, y);
          var invert := Inverts(msk, x, y);
          SetModule(x, y, Get(modules, size, Pos(x, y)) != (invert && !Get(isFunction, size, Pos(x, y))));
        }
        MaskEnds(m, isFunction, size, msk, y);
      }
      MaskedModules(m, isFunction, size, msk);
      return true;
    }

    /** The modules visited so far hold the first i bits, and everything else is as in m. */
    ghost predicate Drawn(m: Grid, done: seq<Pos>, i: nat, data: seq<Byte>)
      reads this
    {
      && Valid() && Square(m, size) && AllInside(done, size)
      && var free := Free(done, isFunction, size);
         AllInside(free, size) && i == Min(|free|, 8 * |data|) && modules == Placed(m, size, free, Unpack(data))
    }

    /** Visits one module: a free one takes the next bit, if any is left. */
    method VisitModule(x: nat, y: nat, data: seq<Byte>, i: nat, ghost m: Grid, ghost done: seq<Pos>) returns (next: nat)
      requires Valid() && x < size && y < size && Drawn(m, done, i, data)
      modifies this`modules
      ensures Valid() && Drawn(m, done + [Pos(x, y)], next, data)
    {
      hide Free, Placed, Unpack, Set, ByteBits;
      ghost var p, free := Pos(x, y), Free(done, isFunction, size);
      FreeSnoc(done, p, isFunction, size);
      next := i;
      if !isFunction[y][x] && i < 8 * |data| {
        PlacedSnoc(m, size, free, p, Unpack(data));
        UnpackAt(data, i);
        SetModule(x, y, ByteBits(data[i / 8])[i % 8]);
        next := i + 1;
      } else if !isFunction[y][x] {
        PlacedSnoc(m, size, free, p, Unpack(data));
      }
    }

    /** Places the codeword bits in zigzag order; refuses data of the wrong length or more bits
        than free modules. */
    method DrawCodewords(data: seq<Byte>) returns (ok: bool)
      requires Valid() && Column6Marked(isFunction, size)
      modifies this`modules
      ensures Valid()
      ensures AllInside(Scan(size, size - 1), size) && SameCells(Scan(size, size - 1), Order(size, 0))
      ensures var free := Free(Scan(size, size - 1), isFunction, size);
              && (ok <==> |data| == NumRawDataModules(version) / 8 && 8 * |data| <= |free|)
              && AllInside(free, size)
              && (ok ==> modules == Placed(old(modules), size, free, Unpack(data)))
    {
      hide Scan, ColumnPair, Free, Placed, Unpack, NumRawDataModules, Order, SameCells;
      FreeCount(isFunction, size);
      ScanIsOrder(size);
      ghost var all := Scan(size, size - 1);
      FreeLength(all, isFunction, size);
      if |data| != NumRawDataModules(version) / 8 { return false; }
      ghost var m := modules;
      ghost var done: seq<Pos> := [];
      var i := 0;
      var right: int := size - 1;
      ScanUnfold(size, right);
      DrawnStart(data);
      hide Drawn, Valid, Upward;
      while right >= 1
        invariant Valid() && ScanStart(right) && right < size
        invariant done + Scan(size, right) == all && Drawn(m, done, i, data)
        decreases right
      {
        ScanUnfold(size, right);
        if right == 6 { right := 5; }
        i := DrawColumnPair(right, data, i, m, done);
        done := done + ColumnPair(size, right);
        right := right - 2;
      }
      ScanUnfold(size, right);
      assert done == all;
      DrawnEnd(m, done, i, data);
      return i == 8 * |data|;
    }

    /** Visits the two columns of a pair, upwards or downwards. */
    method DrawColumnPair(right: nat, data: seq<Byte>, start: nat, ghost m: Grid, ghost done: seq<Pos>) returns (i: nat)
      requires Valid() && 1 <= right < size && Drawn(m, done, start, data)
      modifies this`modules
      ensures Valid() && Drawn(m, done + ColumnPair(size, right), i, data)
    {
      hide ColumnPair, Drawn, Valid, Upward;
      i := start;
      ghost var pair := ColumnPair(size, right);
      assert done + pair[..0] == done;
      for vert := 0 to size
        invariant Valid() && Drawn(m, done + pair[..2 * vert], i, data)
      {
        for j := 0 to 2
          invariant Valid() && Drawn(m, done + pair[..2 * vert + j], i, data)
        {
          var x := right - j;
          var y := if Upward(right) then size - 1 - vert else vert;
          ColumnPairAt(size, right, vert, j);
          i := VisitModule(x, y, data, i, m, done + pair[..2 * vert + j]);
          assert done + pair[..2 * vert + j] + [Pos(x, y)] == done + pair[..2 * vert + j + 1];
        }
      }
      assert pair[..2 * size] == pair;
    }

    /** Tries every mask and takes the first one of minimal penalty. Each trial starts from a symbol
        that differs from the unmasked one in its format bits only. */
    method ChooseMask(data: seq<Byte>, ghost start: seq<bool>) returns (msk: int)
      requires Valid() && |data| == NumDataCodewords(version, ecc) && |start| == 15
      requires isFunction == FunctionGrid(version)
      requires modules == WithFormat(Unmasked(version, ecc, data), size, start)
      modifies this`modules, this`isFunction
      ensures Valid() && isFunction == FunctionGrid(version)
      ensures 0 <= msk < 8 && IsBestMask(version, ecc, data, msk)
      ensures modules == WithFormat(Unmasked(version, ecc, data), size, FormatBits(ecc, 7))
    {
      hide WithFormat, Masked, FormatBits, Unmasked, FunctionGrid, Square, Score, FormatMarked, Column6Marked,
           MarkFormat, NumDataCodewords, Inverted;
      FunctionGridMarks(version);
      FormatMarksAgain(isFunction, size);
      ghost var fn, plain := isFunction, Unmasked(version, ecc, data);
      var minPenalty := LONG_MAX;
      msk := -1;
      ghost var bits := start;
      for i := 0 to 8
        invariant Valid() && isFunction == fn && |bits| == 15
        invariant i == 8 ==> bits == FormatBits(ecc, 7)
        invariant modules == WithFormat(plain, size, bits)
        invariant -1 <= msk < i && (msk == -1 <==> i == 0)
        invariant msk == -1 ==> minPenalty == LONG_MAX
        invariant msk >= 0 ==> minPenalty == Score(Symbol(version, ecc, data, msk), size)
        invariant forall k: nat :: k < i ==> minPenalty <= Score(Symbol(version, ecc, data, k), size)
        invariant forall k: nat :: k < i && k < msk ==> minPenalty < Score(Symbol(version, ecc, data, k), size)
      {
        var ok := ApplyMask(i);
        DrawFormatBits(i);
        FormatOverwritten(plain, fn, size, i, bits, FormatBits(ecc, i));
        assert modules == Symbol(version, ecc, data, i);
        ScoreBound(modules, size);
        var penalty := GetPenaltyScore(modules, size);
        if penalty < minPenalty {
          msk := i;
          minPenalty := penalty;
        }
        ok := ApplyMask(i);
        FormatUnmasked(plain, fn, size, i, FormatBits(ecc, i));
        bits := FormatBits(ecc, i);
      }
    }

    /** The constructor of a symbol; None is an exception for a version, mask or data length out of
        range. The finished symbol carries exactly one mask, with its own format bits; with
        automatic choice it is the first mask of minimal penalty. */
    static method Create(version: int, ecc: Ecc, data: seq<Byte>, msk: int) returns (r: Option<QrCode>)
      ensures r.Some? <==> IsVersion(version) && -1 <= msk <= 7 && |data| == NumDataCodewords(version, ecc)
      ensures r.Some? ==>
        var q := r.value;
        && fresh(q) && q.Valid() && q.version == version && q.ecc == ecc && 0 <= q.mask < 8
        && (msk != -1 ==> q.mask == msk)
        && q.modules == Symbol(version, ecc, data, q.mask)
        && (msk == -1 ==> IsBestMask(version, ecc, data, q.mask))
    {
      hide WithFormat, Masked, FormatBits, FunctionGrid, Score, FormatMarked, Column6Marked, MarkFormat,
           NumDataCodewords, PatternGrid, Placed, Unpack, Interleaver.Interleaved, IsBestMask, Scan, Free,
           NumRawDataModules, Interleaver.Deinterleave, SameCells, Order, Inverted;
      if !IsVersion(version) || msk < -1 || msk > 7 { return None; }
      var q := new QrCode(version, ecc);
      q.DrawFunctionPatterns();
      FunctionGridMarks(version);
      var layout := LayoutOf(version, ecc);
      var codewords := AddEccAndInterleave(layout, data);
      if codewords.None? { return None; }
      DeinterleaveIsInjective(layout, codewords.value, Interleaved(layout, data));
      ghost var free := FreeModulesOf(version);
      var ok := q.DrawCodewords(codewords.value);
      assert ok;
      ghost var plain := Unmasked(version, ecc, data);
      assert q.modules == plain;
      ghost var fn, bits := FunctionGrid(version), FormatBits(ecc, 0);
      UnmaskedHasFormat(version, ecc, data);
      var mask := msk;
      if mask == -1 {
        mask := q.ChooseMask(data, bits);
        bits := FormatBits(ecc, 7);
      }
      q.mask := mask;
      ok := q.ApplyMask(mask);
      q.DrawFormatBits(mask);
      FormatOverwritten(plain, fn, q.size, mask, bits, FormatBits(ecc, mask));
      return Some(q);
    }

    lemma DrawnStart(data: seq<Byte>)
      requires Valid()
      ensures Drawn(modules, [], 0, data)
    {
    }

    lemma DrawnEnd(m: Grid, done: seq<Pos>, i: nat, data: seq<Byte>)
      requires Drawn(m, done, i, data)
      ensures Valid() && Square(m, size) && AllInside(done, size)
      ensures var free := Free(done, isFunction, size);
        AllInside(free, size) && i == Min(|free|, 8 * |data|) && modules == Placed(m, size, free, Unpack(data))
    {
    }
  }

  /** The modules that are not function modules are inverted where the standard says so, by row and
      column, and no other changes. */
  ghost predicate Inverted(g: Grid, after: Grid, fn: Grid, n: nat, msk: nat)
    requires Square(g, n) && Square(after, n) && Square(fn, n)
  {
    forall i, j :: 0 <= i < n && 0 <= j < n ==> after[i][j] == (g[i][j] != (MaskInverts(msk, i, j) && !fn[i][j]))
  }

  lemma MaskedModules(g: Grid, fn: Grid, n: nat, msk: nat)
    requires Square(g, n) && Square(fn, n) && msk < 8
    ensures Inverted(g, Masked(g, fn, n, msk), fn, n, msk)
  {
    hide Inverts, MaskInverts;
    forall i, j | 0 <= i < n && 0 <= j < n
      ensures Masked(g, fn, n, msk)[i][j] == (g[i][j] != (MaskInverts(msk, i, j) && !fn[i][j]))
    {
      MasksAgree(msk, i, j);
    }
  }

  lemma ScanUnfold(size: nat, right: int)
    ensures right < 1 ==> Scan(size, right) == []
    ensures right >= 1 ==>
      var r := if right == 6 then 5 else right; Scan(size, right) == ColumnPair(size, r) + Scan(size, r - 2)
  {
  }

  predicate Upward(right: nat) { (right + 1) / 2 % 2 == 0 }

  lemma ColumnPairAt(size: nat, right: nat, vert: nat, j: nat)
    requires right >= 1 && vert < size && j < 2
    ensures ColumnPair(size, right)[2 * vert + j] == Pos(right - j, if Upward(right) then size - 1 - vert else vert)
  {
    var i := 2 * vert + j;
    assert i % 2 == j && i / 2 == vert;
  }

  lemma AlignStepIs(version: nat)
    requires version >= 2
    ensures var n := version / 7 + 2;
            AlignStep(version) == if version == 32 then 26 else (version * 4 + n * 2 + 1) / (n * 2 - 2) * 2
  {
  }

  lemma AlignmentInside(version: nat, k: nat)
    requires 2 <= version <= 40 && k < AlignCount(version)
    ensures 6 <= AlignAt(version, k) <= SizeOf(version) - 7
  {
    hide AlignStep;
    if k > 0 { AlignmentOrder(version, 0, k); }
  }

  /** The unmasked symbol has the format bits of mask 0. */
  lemma FormatBitsAre(e: Ecc, msk: nat)
    requires msk < 8
    ensures FormatBits(e, msk) == Bits(FormatValue(e, msk), 15)
  {
  }

  lemma UnmaskedHasFormat(version: nat, e: Ecc, data: seq<Byte>)
    requires IsVersion(version) && |data| == NumDataCodewords(version, e)
    ensures WithFormat(Unmasked(version, e, data), SizeOf(version), FormatBits(e, 0)) == Unmasked(version, e, data)
  {
    hide FormatBits, PatternGrid, Placed, Interleaver.Interleaved, NumDataCodewords, IsFormat, FormatColor,
         FunctionGrid, Unpack;
    var n, plain, bits := SizeOf(version), Unmasked(version, e, data), FormatBits(e, 0);
    var before, free := PatternGrid(version, bits), FreeModulesOf(version);
    FunctionGridMarks(version);
    forall p | Inside(p, n)
      ensures Get(WithFormat(plain, n, bits), n, p) == Get(plain, n, p)
    {
      if IsFormat(n, p) {
        FreeModulesAreFree(version, p);
        PlacedAt(before, n, free, Unpack(Interleaved(LayoutOf(version, e), data)), p);
        PatternHasFormat(version, bits, p);
      }
    }
    GridEquality(WithFormat(plain, n, bits), plain, n);
  }

  lemma FreeModulesAreFree(version: nat, p: Pos)
    requires IsVersion(version) && Inside(p, SizeOf(version)) && Get(FunctionGrid(version), SizeOf(version), p)
    ensures forall k :: 0 <= k < |FreeModulesOf(version)| ==> FreeModulesOf(version)[k] != p
  {
    hide Scan, Free, FunctionGrid, NumRawDataModules;
    var n, fn := SizeOf(version), FunctionGrid(version);
    FunctionGridMarks(version);
    FreeCount(fn, n);
    ScanCovers(n, n - 1);
    FreeIsFiltered(Scan(n, n - 1), fn, n);
    assert p !in FreeModulesOf(version);
  }

  lemma PatternHasFormat(version: nat, bits: seq<bool>, p: Pos)
    requires IsVersion(version) && |bits| == 15 && Inside(p, SizeOf(version)) && IsFormat(SizeOf(version), p)
    ensures Get(PatternGrid(version, bits), SizeOf(version), p) == FormatColor(SizeOf(version), p, bits)
  {
    hide Alignments, Stamp, Timing, FormatColor, VersionBits;
  }
}
