/** The field arithmetic of the encoder is that of the standard, which is stated on numbers. */
module FieldNumbers {
  import Bch
  import opened BitBuffers
  import opened FormatWords
  import opened Gf256
  import opened Polynomial
  import opened ReedSolomon
  import opened ReedSolomonDistance
  import opened Standard

  lemma {:induction false} PlusIsXor(a: nat, b: nat)
    ensures Plus(a, b) == Bch.XorNat(a, b)
    decreases a + b
  {
    hide Plus, Bch.XorNat;
    Bch.XorParts(a, b); OddSum(a, b); PlusUnfold(a, b);
    if a == 0 && b == 0 {
      Bch.XorSelf(0); NoSum();
    } else {
      PlusIsXor(a / 2, b / 2);
    }
  }

  lemma PlusUnfold(a: nat, b: nat)
    ensures Plus(a, b) == 2 * Plus(a / 2, b / 2) + if a % 2 == b % 2 then 0 else 1
  {
  }

  lemma ShiftedXor(a: Byte, b: Byte)
    ensures ShiftRight(Xor(a, b)) == Xor(ShiftRight(a), ShiftRight(b)) && Xor(a, b).b0 == (a.b0 != b.b0)
  {
  }

  lemma Halved(a: Byte)
    ensures Value(a) / 2 == Value(ShiftRight(a)) && Value(a) % 2 == BitValue(a.b0)
    ensures a == Zero <==> Value(a) == 0
  {
    ShiftRightValue(a);
  }

  /** Sums of bytes. */
  lemma {:induction false} ValueOfXor(a: Byte, b: Byte)
    ensures Value(Xor(a, b)) == Plus(Value(a), Value(b))
    decreases Value(a) + Value(b)
  {
    hide Value, Xor, ShiftRight, Plus;
    Halved(a); Halved(b); Halved(Xor(a, b));
    PlusUnfold(Value(a), Value(b));
    ShiftedXor(a, b);
    if a == Zero && b == Zero {
      XorZero(Zero); NoSum();
    } else {
      ValueOfXor(ShiftRight(a), ShiftRight(b));
    }
  }

  lemma NoSum()
    ensures Plus(0, 0) == 0 && Value(Zero) == 0
  {
  }

  /** A carry into the ninth bit cancels. */
  lemma PlusCancels(u: nat, w: nat)
    requires u < 256 && w < 256
    ensures Plus(256 + u, 256 + w) == Plus(u, w)
  {
    hide Bch.XorNat, Plus, Bch.Shifted;
    assert Pow2(8) == 256;
    Bch.ShiftedIs(1, 8);
    Bch.XorDisjoint(1, u, 8); Bch.XorDisjoint(1, w, 8);
    PlusIsXor(256 + u, 256 + w); PlusIsXor(u, w);
    Bch.XorCommutes(256, u);
    Bch.XorThrough(u, w, 256);
  }

  /** Twice a byte. */
  lemma ValueOfXTime(a: Byte)
    ensures Value(XTime(a)) == Twice(Value(a))
  {
    hide Plus, Xor, XTime, Value, ShiftLeft;
    var low := ShiftLeft(a);
    ShiftedValue(a); ByteValue(low);
    assert Value(Reduction) == 29 by { ReductionValue(); }
    XTimeIsReducedShift(a);
    if a.b7 {
      ValueOfXor(low, Reduction);
      PlusCancels(Value(low), 29);
    } else {
      XorZero(low);
    }
  }

  lemma ReductionValue()
    ensures Value(Reduction) == 29
  {
  }

  lemma ShiftedValue(a: Byte)
    ensures Value(ShiftLeft(a)) == 2 * Value(a) - if a.b7 then 256 else 0
  {
  }

  lemma ByteValue(a: Byte)
    ensures Value(a) < 256
  {
  }

  /** Products of bytes. */
  lemma {:induction false} ValueOfMul(x: Byte, y: Byte)
    ensures Value(Mul(x, y)) == Multiplied(Value(x), Value(y))
    decreases Value(y)
  {
    hide Value, Xor, ShiftRight, Plus, XTime, Mul, Twice;
    Halved(y); NoSum();
    if y == Zero {
      MulZero(x);
    } else {
      ValueOfMul(x, ShiftRight(y));
      MulUnfold(x, y);
      ValueOfXTime(Mul(x, ShiftRight(y)));
      ValueOfXor(Select(y.b0, x), XTime(Mul(x, ShiftRight(y))));
    }
  }

  /** The roots of the generator polynomials. */
  lemma {:induction false} ValueOfRoot(i: nat)
    ensures Value(Root(i)) == Alpha(i)
  {
    hide Mul, XTime, Twice;
    if i == 0 {
      assert Value(One) == 1;
    } else {
      ValueOfRoot(i - 1);
      RootNext(i - 1);
      ValueOfXTime(Root(i - 1));
    }
  }

  function Values(p: Poly): (s: seq<nat>)
    ensures |s| == |p|
  {
    seq(|p|, i requires 0 <= i < |p| => Value(p[i]))
  }

  /** Values of polynomials. */
  lemma {:induction false} ValueOfEval(p: Poly, a: Byte)
    ensures Value(Eval(p, a)) == ValueAt(Values(p), Value(a))
  {
    hide Mul, Xor, Value, Plus, Multiplied;
    if p == [] {
      NoSum();
    } else {
      var n := |p| - 1;
      ValueOfEval(p[..n], a);
      assert Values(p)[..n] == Values(p[..n]);
      ValueOfMul(Eval(p[..n], a), a);
      ValueOfXor(Mul(Eval(p[..n], a), a), p[n]);
    }
  }

  /** What vanishes at a root vanishes, as numbers, at the power of 2. */
  lemma VanishesAsNumbers(word: Poly, i: nat)
    ensures Eval(word, Root(i)) == Zero ==> ValueAt(Values(word), Alpha(i)) == 0
  {
    hide Eval, Root, Value, ValueAt, Alpha;
    ValueOfEval(word, Root(i));
    ValueOfRoot(i);
    NoSum();
  }

  /** The number of a codeword is the number in its field. */
  lemma FieldOfByte(b: Byte)
    ensures Field(ByteBits(b)) == Value(b)
  {
    hide Horner;
    var s := ByteBits(b);
    assert s[0..] == s;
    HornerStep(s, 0, 0);
    HornerStep(s, 3, Octal(s, 0));
    HornerTwo(s[6..], 8 * Octal(s, 0) + Octal(s, 3));
  }

  lemma HornerTwo(s: seq<bool>, high: nat)
    requires |s| == 2
    ensures Horner(s, high) == 4 * high + 2 * BitOf(s[0]) + BitOf(s[1])
  {
    var one := 2 * high + BitOf(s[0]);
    assert Horner(s, high) == Horner(s[1..], one);
    assert Horner(s[1..], one) == Horner(s[1..][1..], 2 * one + BitOf(s[1])) && s[1..][1..] == [];
  }
}
