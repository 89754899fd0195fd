/** The format information of the encoder, bit by bit: the words that the standard lists. */
module FormatWords {
  import Bch
  import opened BitBuffers
  import opened Standard
  import opened StandardTables
  import opened Versions
  import opened Wrappers
  import opened FunctionPatterns

  // ----- the bits of sums, of concatenated numbers and of a division step

  lemma {:induction false} BitsXor(a: nat, b: nat, n: nat, k: nat)
    requires k < n
    ensures Bits(Bch.XorNat(a, b), n)[k] == (Bits(a, n)[k] != Bits(b, n)[k])
  {
    hide Bch.XorNat, Bits;
    Bch.XorParts(a, b); OddSum(a, b);
    BitsUnfold(a, n); BitsUnfold(b, n); BitsUnfold(Bch.XorNat(a, b), n);
    if k < n - 1 { BitsXor(a / 2, b / 2, n - 1, k); }
  }

  lemma BitsUnfold(v: nat, n: nat)
    requires n >= 1
    ensures Bits(v, n) == Bits(v / 2, n - 1) + [v % 2 == 1]
  {
  }

  lemma OddSum(a: nat, b: nat)
    ensures (a + b) % 2 == if a % 2 == b % 2 then 0 else 1
  {
  }

  lemma {:induction false} BitsJoin(a: nat, b: nat, n: nat, m: nat)
    requires b < Pow2(m)
    ensures Bits(a * Pow2(m) + b, n + m) == Bits(a, n) + Bits(b, m)
  {
    if m != 0 {
      var v := a * Pow2(m) + b;
      assert v == 2 * (a * Pow2(m - 1)) + b;
      BitsJoin(a, b / 2, n, m - 1);
      assert v / 2 == a * Pow2(m - 1) + b / 2 && v % 2 == b % 2;
    }
  }

  lemma {:induction false} BitsTail(v: nat, n: nat)
    ensures Bits(v, n + 1)[1..] == Bits(v, n)
  {
    if n != 0 {
      BitsTail(v / 2, n - 1);
      assert Bits(v, n + 1) == Bits(v / 2, n) + [v % 2 == 1];
      assert Bits(v, n) == Bits(v / 2, n - 1) + [v % 2 == 1];
    }
  }

  lemma {:induction false} TopBit(v: nat, n: nat)
    requires v < 2 * Pow2(n)
    ensures Bits(v, n + 1)[0] <==> v >= Pow2(n)
  {
    if n != 0 {
      TopBit(v / 2, n - 1);
      assert Bits(v, n + 1)[0] == Bits(v / 2, n)[0];
    }
  }

  lemma Quotient(v: nat, half: nat)
    requires 1 <= half && v < 2 * half
    ensures v / half == if v < half then 0 else 1
  {
  }

  lemma {:induction false} NoBits(n: nat, k: nat)
    requires k < n
    ensures !Bits(0, n)[k]
  {
    if k < n - 1 { NoBits(n - 1, k); }
  }

  /** A step of the encoder's division is a step of a shift register with feedback to the taps that
      the generator sets. */
  lemma StepBit(rem: nat, g: nat, d: nat, k: nat)
    requires d >= 1 && rem < Pow2(d) && k < d
    ensures var r := Bits(rem, d);
            Bits(Bch.DivisionStep(rem, g, d), d)[k] == ((k + 1 < d && r[k + 1]) != (r[0] && Bits(g, d)[k]))
  {
    hide Bch.XorNat, Bits, Pow2;
    var half := Pow2(d - 1);
    PowerStep(d);
    TopBit(rem, d - 1); Quotient(rem, half);
    BitsTail(rem, d - 1); DoubleBits(rem, d);
    var top := if rem < half then 0 else 1;
    assert Bch.DivisionStep(rem, g, d) == Bch.XorNat(2 * rem, top * g);
    BitsXor(2 * rem, top * g, d, k);
    if top == 0 { NoBits(d, k); }
  }

  lemma PowerStep(n: nat)
    requires n >= 1
    ensures Pow2(n) == 2 * Pow2(n - 1)
  {
  }

  lemma DoubleBits(v: nat, n: nat)
    requires n >= 1
    ensures Bits(2 * v, n) == Bits(v, n - 1) + [false]
  {
    assert 2 * v / 2 == v && 2 * v % 2 == 0;
  }

  // ----- the register of the format information

  /** The bits of the register, the most significant first. */
  datatype Ten = Ten(a0: bool, a1: bool, a2: bool, a3: bool, a4: bool, a5: bool, a6: bool, a7: bool, a8: bool, a9: bool)

  /** A step of the division by 10100110111. */
  function TenStep(r: Ten): Ten {
    Ten(r.a1, r.a2 != r.a0, r.a3, r.a4, r.a5 != r.a0, r.a6 != r.a0, r.a7, r.a8 != r.a0, r.a9 != r.a0, r.a0)
  }

  predicate TenBits(s: seq<bool>, r: Ten)
    requires |s| == 10
  {
    && s[0] == r.a0 && s[1] == r.a1 && s[2] == r.a2 && s[3] == r.a3 && s[4] == r.a4 && s[5] == r.a5
    && s[6] == r.a6 && s[7] == r.a7 && s[8] == r.a8 && s[9] == r.a9
  }

  const FORMAT_TAPS := [false, true, false, false, true, true, false, true, true, true]

  lemma FormatTaps()
    ensures Bits(FORMAT_GENERATOR, 10) == FORMAT_TAPS
  {
  }

  lemma FormatStepBits(rem: nat, r: Ten)
    requires rem < 1024 && TenBits(Bits(rem, 10), r)
    ensures TenBits(Bits(Bch.DivisionStep(rem, FORMAT_GENERATOR, 10), 10), TenStep(r))
  {
    hide Bits, Pow2, Bch.DivisionStep;
    Widths(); FormatTaps();
    FormatStepBit(rem, 0); FormatStepBit(rem, 1); FormatStepBit(rem, 2); FormatStepBit(rem, 3); FormatStepBit(rem, 4);
    FormatStepBit(rem, 5); FormatStepBit(rem, 6); FormatStepBit(rem, 7); FormatStepBit(rem, 8); FormatStepBit(rem, 9);
  }

  lemma FormatStepBit(rem: nat, k: nat)
    requires rem < 1024 && k < 10
    ensures var r := Bits(rem, 10);
            Bits(Bch.DivisionStep(rem, FORMAT_GENERATOR, 10), 10)[k]
              == ((k < 9 && r[k + 1]) != (r[0] && FORMAT_TAPS[k]))
  {
    hide Bits, Pow2, Bch.DivisionStep;
    Widths(); FormatTaps();
    StepBit(rem, FORMAT_GENERATOR, 10, k);
  }

  function TenRun(r: Ten, n: nat): Ten { if n == 0 then r else TenStep(TenRun(r, n - 1)) }

  lemma {:induction false} FormatRun(e: Ecc, msk: nat, r: Ten, n: nat)
    requires msk < 8 && TenBits(Bits(FormatData(e, msk), 10), r)
    ensures TenBits(Bits(Bch.Division(FormatData(e, msk), FORMAT_GENERATOR, 10, n), 10), TenRun(r, n))
  {
    hide Bits, Bch.DivisionStep, TenStep;
    if n != 0 {
      FormatRun(e, msk, r, n - 1);
      FormatStepFits(e, msk, n - 1);
      FormatStepBits(Bch.Division(FormatData(e, msk), FORMAT_GENERATOR, 10, n - 1), TenRun(r, n - 1));
    }
  }

  /** The check bits of five data bits. */
  function FormatCheck(p: bool, q: bool, u: bool, v: bool, w: bool): Ten {
    Ten((p != q) != v, (q != u) != w, (p != q) != u,
        (q != u) != v, (u != v) != w, (p != q) != w,
        (p != u) != v, (q != v) != w, (((p != q) != u) != v) != w,
        (p != u) != w)
  }

  lemma FormatSteps(p: bool, q: bool, u: bool, v: bool, w: bool)
    ensures var r := Ten(p, q, u, v, w, false, false, false, false, false);
            TenStep(TenStep(TenStep(TenStep(TenStep(r))))) == FormatCheck(p, q, u, v, w)
  {
  }

  lemma TenRunFive(r: Ten, n: nat)
    ensures TenRun(r, n + 5) == TenStep(TenStep(TenStep(TenStep(TenStep(TenRun(r, n))))))
  {
    hide TenStep;
    assert TenRun(r, n + 2) == TenStep(TenRun(r, n + 1));
    assert TenRun(r, n + 4) == TenStep(TenRun(r, n + 3));
  }

  lemma FormatShifts(p: bool, q: bool, u: bool, v: bool, w: bool)
    ensures var r := Ten(false, false, false, false, false, p, q, u, v, w);
            TenStep(TenStep(TenStep(TenStep(TenStep(r))))) == Ten(p, q, u, v, w, false, false, false, false, false)
  {
  }

  lemma NoRun(r: Ten)
    ensures TenRun(r, 0) == r
  {
  }

  // ----- the format information

  const FORMAT_PATTERN := [true, false, true, false, true, false, false, false, false, false, true, false, false, true,
                           false]

  lemma FormatPattern()
    ensures Bits(FORMAT_MASK, 15) == FORMAT_PATTERN
  {
  }

  /** The bits of the level and the mask, and the check bits after them. */
  lemma FormatCode(e: Ecc, msk: nat)
    requires msk < 8
    ensures var d := Bits(FormatData(e, msk), 5);
            var c := Bits(Bch.Division(FormatData(e, msk), FORMAT_GENERATOR, 10, 10), 10);
            TenBits(c, FormatCheck(d[0], d[1], d[2], d[3], d[4]))
  {
    hide Bits, Pow2, TenRun, TenStep, FormatCheck, Bch.Division;
    var data := FormatData(e, msk);
    var d := Bits(data, 5);
    var r := Ten(false, false, false, false, false, d[0], d[1], d[2], d[3], d[4]);
    Widths();
    BitsJoin(0, data, 5, 5);
    assert Bits(data, 10) == Bits(0, 5) + d;
    NoBits(5, 0); NoBits(5, 1); NoBits(5, 2); NoBits(5, 3); NoBits(5, 4);
    FormatRun(e, msk, r, 10);
    NoRun(r); TenRunFive(r, 0); TenRunFive(r, 5);
    FormatShifts(d[0], d[1], d[2], d[3], d[4]); FormatSteps(d[0], d[1], d[2], d[3], d[4]);
  }

  /** The level and the mask as five bits. */
  lemma FormatDataBits(e: Ecc, msk: nat)
    requires msk < 8
    ensures var d := Bits(FormatData(e, msk), 5);
            && d[0] == (e.Quartile? || e.High?) && d[1] == (e.Low? || e.Quartile?)
            && d[2] == (msk >= 4) && d[3] == (msk % 4 >= 2) && d[4] == (msk % 2 == 1)
  {
    LevelBits(e); ThreeBits(msk);
    hide Bits, FormatLevel;
    assert Pow2(3) == 8;
    BitsJoin(FormatLevel(e), msk, 2, 3);
  }

  lemma LevelBits(e: Ecc)
    ensures Bits(FormatLevel(e), 2) == [e.Quartile? || e.High?, e.Low? || e.Quartile?]
  {
  }

  lemma ThreeBits(v: nat)
    requires v < 8
    ensures var d := Bits(v, 3); d[0] == (v >= 4) && d[1] == (v % 4 >= 2) && d[2] == (v % 2 == 1)
  {
    assert Bits(v, 3) == Bits(v / 2, 2) + [v % 2 == 1];
    assert Bits(v / 2, 2) == Bits(v / 4, 1) + [v / 2 % 2 == 1];
    assert Bits(v / 4, 1) == Bits(v / 8, 0) + [v / 4 % 2 == 1];
  }

  lemma FormatBit(e: Ecc, msk: nat, k: nat)
    requires msk < 8 && k < 15
    ensures var d := Bits(FormatData(e, msk), 5);
            var c := Bits(Bch.Division(FormatData(e, msk), FORMAT_GENERATOR, 10, 10), 10);
            FormatBits(e, msk)[k] == ((d + c)[k] != FORMAT_PATTERN[k])
  {
    hide Bits, Pow2, Bch.Division, Bch.XorNat;
    var data := FormatData(e, msk);
    var rem := Bch.Division(data, FORMAT_GENERATOR, 10, 10);
    Widths();
    FormatStepFits(e, msk, 10);
    BitsJoin(data, rem, 5, 10);
    FormatPattern();
    BitsXor(data * 1024 + rem, FORMAT_MASK, 15, k);
  }

  // ----- words as numbers

  function BitOf(b: bool): nat { if b then 1 else 0 }

  lemma HornerThree(s: seq<bool>, high: nat)
    requires |s| >= 3
    ensures Horner(s, high) == Horner(s[3..], 8 * high + 4 * BitOf(s[0]) + 2 * BitOf(s[1]) + BitOf(s[2]))
  {
    var one := 2 * high + BitOf(s[0]);
    var two := 2 * one + BitOf(s[1]);
    assert Horner(s, high) == Horner(s[1..], one);
    assert Horner(s[1..], one) == Horner(s[1..][1..], two) && s[1..][1..] == s[2..];
    assert Horner(s[2..], two) == Horner(s[2..][1..], 2 * two + BitOf(s[2])) && s[2..][1..] == s[3..];
  }

  /** The number of three bits. */
  function Octal(s: seq<bool>, k: nat): nat
    requires k + 3 <= |s|
  {
    4 * BitOf(s[k]) + 2 * BitOf(s[k + 1]) + BitOf(s[k + 2])
  }

  lemma FieldOfFifteen(s: seq<bool>)
    requires |s| == 15
    ensures Field(s) == 4096 * Octal(s, 0) + 512 * Octal(s, 3) + 64 * Octal(s, 6) + 8 * Octal(s, 9) + Octal(s, 12)
  {
    hide Horner, Octal;
    var a, b, c, d, e := Octal(s, 0), Octal(s, 3), Octal(s, 6), Octal(s, 9), Octal(s, 12);
    assert s[0..] == s;
    HornerStep(s, 0, 0);
    HornerStep(s, 3, a);
    HornerStep(s, 6, 8 * a + b);
    HornerStep(s, 9, 64 * a + 8 * b + c);
    HornerStep(s, 12, 512 * a + 64 * b + 8 * c + d);
    HornerEnd(s[15..], 4096 * a + 512 * b + 64 * c + 8 * d + e);
  }

  lemma HornerStep(s: seq<bool>, k: nat, high: nat)
    requires k + 3 <= |s|
    ensures Horner(s[k..], high) == Horner(s[k + 3..], 8 * high + Octal(s, k))
  {
    hide Horner;
    HornerThree(s[k..], high);
    assert s[k..][3..] == s[k + 3..];
  }

  lemma HornerEnd(s: seq<bool>, high: nat)
    ensures s == [] ==> Horner(s, high) == high
  {
  }

  /** The bits of a format with the five data bits p, ..., w. */
  predicate FormatWord(s: seq<bool>, p: bool, q: bool, u: bool, v: bool, w: bool)
    requires |s| == 15
  {
    var c := FormatCheck(p, q, u, v, w);
    && s[0] == !p && s[1] == q && s[2] == !u && s[3] == v && s[4] == !w
    && s[5] == c.a0 && s[6] == c.a1 && s[7] == c.a2 && s[8] == c.a3 && s[9] == c.a4
    && s[10] == !c.a5 && s[11] == c.a6 && s[12] == c.a7 && s[13] == !c.a8 && s[14] == c.a9
  }

  lemma FormatWordIs(e: Ecc, msk: nat)
    requires msk < 8
    ensures FormatWord(FormatBits(e, msk), e.Quartile? || e.High?, e.Low? || e.Quartile?,
                       msk >= 4, msk % 4 >= 2, msk % 2 == 1)
  {
    hide Bits, FormatBits, FormatCheck, Bch.Division;
    FormatDataBits(e, msk); FormatCode(e, msk);
    FormatBit(e, msk, 0); FormatBit(e, msk, 1); FormatBit(e, msk, 2); FormatBit(e, msk, 3); FormatBit(e, msk, 4);
    FormatBit(e, msk, 5); FormatBit(e, msk, 6); FormatBit(e, msk, 7); FormatBit(e, msk, 8); FormatBit(e, msk, 9);
    FormatBit(e, msk, 10); FormatBit(e, msk, 11); FormatBit(e, msk, 12); FormatBit(e, msk, 13); FormatBit(e, msk, 14);
  }

  lemma FormatListed0(e: Ecc, msk: nat, s: seq<bool>)
    requires 0 <= msk <= 1 && |s| == 15
    requires FormatWord(s, e.Quartile? || e.High?, e.Low? || e.Quartile?, msk >= 4, msk % 4 >= 2, msk % 2 == 1)
    ensures FormatOf(4096 * Octal(s, 0) + 512 * Octal(s, 3) + 64 * Octal(s, 6) + 8 * Octal(s, 9) + Octal(s, 12))
         == Some(Format(LevelOf(e), msk))
  {
    match msk case 0 => case _ =>
  }

  lemma FormatListed2(e: Ecc, msk: nat, s: seq<bool>)
    requires 2 <= msk <= 3 && |s| == 15
    requires FormatWord(s, e.Quartile? || e.High?, e.Low? || e.Quartile?, msk >= 4, msk % 4 >= 2, msk % 2 == 1)
    ensures FormatOf(4096 * Octal(s, 0) + 512 * Octal(s, 3) + 64 * Octal(s, 6) + 8 * Octal(s, 9) + Octal(s, 12))
         == Some(Format(LevelOf(e), msk))
  {
    match msk case 2 => case _ =>
  }

  lemma FormatListed4(e: Ecc, msk: nat, s: seq<bool>)
    requires 4 <= msk <= 5 && |s| == 15
    requires FormatWord(s, e.Quartile? || e.High?, e.Low? || e.Quartile?, msk >= 4, msk % 4 >= 2, msk % 2 == 1)
    ensures FormatOf(4096 * Octal(s, 0) + 512 * Octal(s, 3) + 64 * Octal(s, 6) + 8 * Octal(s, 9) + Octal(s, 12))
         == Some(Format(LevelOf(e), msk))
  {
    match msk case 4 => case _ =>
  }

  lemma FormatListed6(e: Ecc, msk: nat, s: seq<bool>)
    requires 6 <= msk <= 7 && |s| == 15
    requires FormatWord(s, e.Quartile? || e.High?, e.Low? || e.Quartile?, msk >= 4, msk % 4 >= 2, msk % 2 == 1)
    ensures FormatOf(4096 * Octal(s, 0) + 512 * Octal(s, 3) + 64 * Octal(s, 6) + 8 * Octal(s, 9) + Octal(s, 12))
         == Some(Format(LevelOf(e), msk))
  {
    match msk case 6 => case _ =>
  }

  /** The 15 bits of a format, as a number, are the word that the standard lists for it. */
  lemma FormatAgrees(e: Ecc, msk: nat)
    requires msk < 8
    ensures FormatOf(Field(FormatBits(e, msk))) == Some(Format(LevelOf(e), msk))
  {
    hide FormatBits, Field, FormatOf, FormatWord;
    FormatWordIs(e, msk);
    FieldOfFifteen(FormatBits(e, msk));
    var s := FormatBits(e, msk);
    if msk < 2 { FormatListed0(e, msk, s); } else if msk < 4 { FormatListed2(e, msk, s); }
    else if msk < 6 { FormatListed4(e, msk, s); } else { FormatListed6(e, msk, s); }
  }
}
