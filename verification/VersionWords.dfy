/** The version information of the encoder, bit by bit: the words that the standard lists. */
module VersionWords {
  import Bch
  import opened BitBuffers
  import opened FormatWords
  import opened FunctionPatterns
  import opened Standard

  // ----- the register of the version information

  /** The bits of the register, the most significant first. */
  datatype Twelve = Twelve(a0: bool, a1: bool, a2: bool, a3: bool, a4: bool, a5: bool,
                           a6: bool, a7: bool, a8: bool, a9: bool, a10: bool, a11: bool)

  /** A step of the division by 1111100100101. */
  function TwelveStep(r: Twelve): Twelve {
    Twelve(r.a1 != r.a0, r.a2 != r.a0, r.a3 != r.a0, r.a4 != r.a0, r.a5, r.a6,
           r.a7 != r.a0, r.a8, r.a9, r.a10 != r.a0, r.a11, r.a0)
  }

  predicate TwelveBits(s: seq<bool>, r: Twelve)
    requires |s| == 12
  {
    && s[0] == r.a0 && s[1] == r.a1 && s[2] == r.a2 && s[3] == r.a3 && s[4] == r.a4 && s[5] == r.a5
    && s[6] == r.a6 && s[7] == r.a7 && s[8] == r.a8 && s[9] == r.a9 && s[10] == r.a10 && s[11] == r.a11
  }

  const VERSION_TAPS := [true, true, true, true, false, false, true, false, false, true, false, true]

  lemma VersionTaps()
    ensures Bits(VERSION_GENERATOR, 12) == VERSION_TAPS
  {
  }

  lemma VersionStepBit(rem: nat, k: nat)
    requires rem < 4096 && k < 12
    ensures var r := Bits(rem, 12);
            Bits(Bch.DivisionStep(rem, VERSION_GENERATOR, 12), 12)[k]
              == ((k < 11 && r[k + 1]) != (r[0] && VERSION_TAPS[k]))
  {
    hide Bits, Pow2, Bch.DivisionStep;
    Widths(); VersionTaps();
    StepBit(rem, VERSION_GENERATOR, 12, k);
  }

  lemma VersionStepBits(rem: nat, r: Twelve)
    requires rem < 4096 && TwelveBits(Bits(rem, 12), r)
    ensures TwelveBits(Bits(Bch.DivisionStep(rem, VERSION_GENERATOR, 12), 12), TwelveStep(r))
  {
    hide Bits, Pow2, Bch.DivisionStep;
    VersionStepBit(rem, 0); VersionStepBit(rem, 1); VersionStepBit(rem, 2); VersionStepBit(rem, 3);
    VersionStepBit(rem, 4); VersionStepBit(rem, 5); VersionStepBit(rem, 6); VersionStepBit(rem, 7);
    VersionStepBit(rem, 8); VersionStepBit(rem, 9); VersionStepBit(rem, 10); VersionStepBit(rem, 11);
  }

  function TwelveRun(r: Twelve, n: nat): Twelve { if n == 0 then r else TwelveStep(TwelveRun(r, n - 1)) }

  lemma {:induction false} VersionRun(version: nat, r: Twelve, n: nat)
    requires version < 64 && TwelveBits(Bits(version, 12), r)
    ensures TwelveBits(Bits(Bch.Division(version, VERSION_GENERATOR, 12, n), 12), TwelveRun(r, n))
  {
    hide Bits, Bch.DivisionStep, TwelveStep;
    if n != 0 {
      VersionRun(version, r, n - 1);
      VersionFitsBits(version, n - 1);
      VersionStepBits(Bch.Division(version, VERSION_GENERATOR, 12, n - 1), TwelveRun(r, n - 1));
    }
  }

  /** The check bits of six data bits. */
  function VersionCheck(o: bool, p: bool, q: bool, u: bool, v: bool, w: bool): Twelve {
    Twelve((o != p) != w, q != w, (p != u) != w,
           (((o != p) != q) != v) != w, (o != q) != u, ((o != p) != u) != v,
           ((p != q) != v) != w, ((o != p) != q) != u, ((p != q) != u) != v,
           (((o != q) != u) != v) != w, u != v, (o != v) != w)
  }

  lemma VersionSteps(o: bool, p: bool, q: bool, u: bool, v: bool, w: bool)
    ensures var r := Twelve(o, p, q, u, v, w, false, false, false, false, false, false);
            TwelveStep(TwelveStep(TwelveStep(TwelveStep(TwelveStep(TwelveStep(r)))))) == VersionCheck(o, p, q, u, v, w)
  {
  }

  lemma VersionShifts(o: bool, p: bool, q: bool, u: bool, v: bool, w: bool)
    ensures var r := Twelve(false, false, false, false, false, false, o, p, q, u, v, w);
            TwelveStep(TwelveStep(TwelveStep(TwelveStep(TwelveStep(TwelveStep(r))))))
              == Twelve(o, p, q, u, v, w, false, false, false, false, false, false)
  {
  }

  lemma TwelveRunSix(r: Twelve, n: nat)
    ensures TwelveRun(r, n + 6)
         == TwelveStep(TwelveStep(TwelveStep(TwelveStep(TwelveStep(TwelveStep(TwelveRun(r, n)))))))
  {
    hide TwelveStep;
    assert TwelveRun(r, n + 2) == TwelveStep(TwelveRun(r, n + 1));
    assert TwelveRun(r, n + 4) == TwelveStep(TwelveRun(r, n + 3));
  }

  lemma NoTwelveRun(r: Twelve)
    ensures TwelveRun(r, 0) == r
  {
  }

  // ----- the version information

  lemma VersionCode(version: nat)
    requires version < 64
    ensures var d, c := Bits(version, 6), Bits(Bch.Division(version, VERSION_GENERATOR, 12, 12), 12);
            VersionBits(version) == d + c && TwelveBits(c, VersionCheck(d[0], d[1], d[2], d[3], d[4], d[5]))
  {
    hide Bits, Pow2, TwelveRun, TwelveStep, VersionCheck, Bch.Division;
    var d := Bits(version, 6);
    var r := Twelve(false, false, false, false, false, false, d[0], d[1], d[2], d[3], d[4], d[5]);
    Widths();
    BitsJoin(0, version, 6, 6);
    assert Bits(version, 12) == Bits(0, 6) + d;
    NoBits(6, 0); NoBits(6, 1); NoBits(6, 2); NoBits(6, 3); NoBits(6, 4); NoBits(6, 5);
    VersionRun(version, r, 12);
    NoTwelveRun(r); TwelveRunSix(r, 0); TwelveRunSix(r, 6);
    VersionShifts(d[0], d[1], d[2], d[3], d[4], d[5]); VersionSteps(d[0], d[1], d[2], d[3], d[4], d[5]);
    VersionFitsBits(version, 12);
    BitsJoin(version, Bch.Division(version, VERSION_GENERATOR, 12, 12), 6, 12);
  }

  lemma VersionDataBits(version: nat)
    requires version < 64
    ensures var d, a, b := Bits(version, 6), version / 8, version % 8;
            && d[0] == (a >= 4) && d[1] == (a % 4 >= 2) && d[2] == (a % 2 == 1)
            && d[3] == (b >= 4) && d[4] == (b % 4 >= 2) && d[5] == (b % 2 == 1)
  {
    hide Bits;
    assert Pow2(3) == 8;
    BitsJoin(version / 8, version % 8, 3, 3);
    ThreeBits(version / 8); ThreeBits(version % 8);
  }

  lemma FieldOfEighteen(s: seq<bool>)
    requires |s| == 18
    ensures Field(s) == 32768 * Octal(s, 0) + 4096 * Octal(s, 3) + 512 * Octal(s, 6) + 64 * Octal(s, 9)
                      + 8 * Octal(s, 12) + Octal(s, 15)
  {
    hide Horner, Octal;
    var a, b, c, d, e, f := Octal(s, 0), Octal(s, 3), Octal(s, 6), Octal(s, 9), Octal(s, 12), Octal(s, 15);
    assert s[0..] == s;
    HornerStep(s, 0, 0);
    HornerStep(s, 3, a);
    HornerStep(s, 6, 8 * a + b);
    HornerStep(s, 9, 64 * a + 8 * b + c);
    HornerStep(s, 12, 512 * a + 64 * b + 8 * c + d);
    HornerStep(s, 15, 4096 * a + 512 * b + 64 * c + 8 * d + e);
    HornerEnd(s[18..], 32768 * a + 4096 * b + 512 * c + 64 * d + 8 * e + f);
  }

  /** Bits of version information, with their data bits given by the version. */
  predicate VersionBitsAre(s: seq<bool>, version: nat)
    requires |s| == 18
  {
    var a, b := version / 8, version % 8;
    var c := VersionCheck(a >= 4, a % 4 >= 2, a % 2 == 1, b >= 4, b % 4 >= 2, b % 2 == 1);
    && s[0] == (a >= 4) && s[1] == (a % 4 >= 2) && s[2] == (a % 2 == 1)
    && s[3] == (b >= 4) && s[4] == (b % 4 >= 2) && s[5] == (b % 2 == 1)
    && s[6] == c.a0 && s[7] == c.a1 && s[8] == c.a2 && s[9] == c.a3 && s[10] == c.a4 && s[11] == c.a5
    && s[12] == c.a6 && s[13] == c.a7 && s[14] == c.a8 && s[15] == c.a9 && s[16] == c.a10 && s[17] == c.a11
  }

  lemma VersionBitsKnown(version: nat)
    requires version < 64
    ensures VersionBitsAre(VersionBits(version), version)
  {
    hide Bits, VersionBits, VersionCheck, Bch.Division;
    VersionDataBits(version); VersionCode(version);
  }

  lemma VersionsListed7(version: nat, s: seq<bool>)
    requires 7 <= version <= 14 && |s| == 18 && VersionBitsAre(s, version)
    ensures 32768 * Octal(s, 0) + 4096 * Octal(s, 3) + 512 * Octal(s, 6) + 64 * Octal(s, 9) + 8 * Octal(s, 12)
          + Octal(s, 15) == VersionWord(version)
  {
    match version case 7 => case 8 => case 9 => case 10 => case 11 => case 12 => case 13 => case _ =>
  }

  lemma VersionsListed15(version: nat, s: seq<bool>)
    requires 15 <= version <= 22 && |s| == 18 && VersionBitsAre(s, version)
    ensures 32768 * Octal(s, 0) + 4096 * Octal(s, 3) + 512 * Octal(s, 6) + 64 * Octal(s, 9) + 8 * Octal(s, 12)
          + Octal(s, 15) == VersionWord(version)
  {
    match version case 15 => case 16 => case 17 => case 18 => case 19 => case 20 => case 21 => case _ =>
  }

  lemma VersionsListed23(version: nat, s: seq<bool>)
    requires 23 <= version <= 31 && |s| == 18 && VersionBitsAre(s, version)
    ensures 32768 * Octal(s, 0) + 4096 * Octal(s, 3) + 512 * Octal(s, 6) + 64 * Octal(s, 9) + 8 * Octal(s, 12)
          + Octal(s, 15) == VersionWord(version)
  {
    match version case 23 => case 24 => case 25 => case 26 => case 27 => case 28 => case 29 => case 30 => case _ =>
  }

  lemma VersionsListed32(version: nat, s: seq<bool>)
    requires 32 <= version <= 40 && |s| == 18 && VersionBitsAre(s, version)
    ensures 32768 * Octal(s, 0) + 4096 * Octal(s, 3) + 512 * Octal(s, 6) + 64 * Octal(s, 9) + 8 * Octal(s, 12)
          + Octal(s, 15) == VersionWord(version)
  {
    match version case 32 => case 33 => case 34 => case 35 => case 36 => case 37 => case 38 => case 39 => case _ =>
  }

  /** The 18 version bits, as a number, are the word that the standard lists for the version. */
  lemma VersionAgrees(version: nat)
    requires 7 <= version <= 40
    ensures Field(VersionBits(version)) == VersionWord(version)
  {
    hide VersionBits, Field, VersionWord, VersionBitsAre;
    var s := VersionBits(version);
    VersionBitsKnown(version);
    FieldOfEighteen(s);
    if version <= 14 { VersionsListed7(version, s); }
    else if version <= 22 { VersionsListed15(version, s); }
    else if version <= 31 { VersionsListed23(version, s); }
    else { VersionsListed32(version, s); }
  }
}
