/** Arithmetic in GF(2^8) modulo x^8 + x^4 + x^3 + x^2 + 1 (0x11D), the field over
    which the encoder computes its Reed-Solomon codewords. */
module Gf256 {

  /** A byte, as the coefficients of a polynomial over GF(2); b7 is the most significant bit. */
  datatype Byte = Byte(b7: bool, b6: bool, b5: bool, b4: bool, b3: bool, b2: bool, b1: bool, b0: bool)

  const Zero := Byte(false, false, false, false, false, false, false, false)
  const One  := Byte(false, false, false, false, false, false, false, true)
  const Two  := Byte(false, false, false, false, false, false, true, false)

  /** The reduction polynomial 0x11D without its x^8 term. */
  const Reduction := Byte(false, false, false, true, true, true, false, true)

  function Xor(a: Byte, b: Byte): Byte {
    Byte(a.b7 != b.b7, a.b6 != b.b6, a.b5 != b.b5, a.b4 != b.b4,
         a.b3 != b.b3, a.b2 != b.b2, a.b1 != b.b1, a.b0 != b.b0)
  }

  /** `a` when the bit is set and 0 otherwise. */
  function Select(bit: bool, a: Byte): Byte { if bit then a else Zero }

  /** The low eight bits of a << 1. */
  function ShiftLeft(a: Byte): Byte { Byte(a.b6, a.b5, a.b4, a.b3, a.b2, a.b1, a.b0, false) }

  /** a >> 1. */
  function ShiftRight(a: Byte): Byte { Byte(false, a.b7, a.b6, a.b5, a.b4, a.b3, a.b2, a.b1) }

  function BitValue(bit: bool): nat { if bit then 1 else 0 }

  /** The number a byte stands for. */
  function Value(a: Byte): nat {
    128 * BitValue(a.b7) + 64 * BitValue(a.b6) + 32 * BitValue(a.b5) + 16 * BitValue(a.b4) +
    8 * BitValue(a.b3) + 4 * BitValue(a.b2) + 2 * BitValue(a.b1) + BitValue(a.b0)
  }

  lemma ShiftRightValue(a: Byte)
    ensures Value(a) == 2 * Value(ShiftRight(a)) + BitValue(a.b0)
    ensures a != Zero ==> Value(ShiftRight(a)) < Value(a)
  {
  }

  /** Multiplication by the polynomial x: an x^8 that falls out returns as x^4 + x^3 + x^2 + 1. */
  function XTime(a: Byte): Byte {
    Byte(a.b6, a.b5, a.b4, a.b3 != a.b7, a.b2 != a.b7, a.b1 != a.b7, a.b0, a.b7)
  }

  lemma XTimeIsReducedShift(a: Byte)
    ensures XTime(a) == Xor(ShiftLeft(a), Select(a.b7, Reduction))
  {
  }

  /** Bit i of a byte, counted from the least significant. */
  function Bit(a: Byte, i: nat): bool
    requires i < 8
  {
    if i == 0 then a.b0 else if i == 1 then a.b1 else if i == 2 then a.b2 else if i == 3 then a.b3
    else if i == 4 then a.b4 else if i == 5 then a.b5 else if i == 6 then a.b6 else a.b7
  }

  /** The field product, by Horner's rule over the bits of y. */
  function Mul(x: Byte, y: Byte): Byte { MulBits(x, seq(8, i requires 0 <= i < 8 => Bit(y, i))) }

  /** The product of x with a polynomial that is given by its coefficients, the lowest first. */
  function MulBits(x: Byte, bits: seq<bool>): Byte {
    if bits == [] then Zero else Xor(Select(bits[0], x), XTime(MulBits(x, bits[1..])))
  }

  lemma MulIs(x: Byte, y: Byte, bits: seq<bool>)
    requires |bits| == 8 && forall i :: 0 <= i < 8 ==> bits[i] == Bit(y, i)
    ensures Mul(x, y) == MulBits(x, bits)
  {
    hide Bit, MulBits;
    assert bits == seq(8, i requires 0 <= i < 8 => Bit(y, i));
  }

  lemma {:induction false} MulBitsHighZero(x: Byte, bits: seq<bool>)
    ensures MulBits(x, bits + [false]) == MulBits(x, bits)
  {
    if bits == [] {
      assert [false][1..] == [];
      assert XTime(Zero) == Zero && Xor(Zero, Zero) == Zero;
    } else {
      hide Xor, XTime, Select;
      MulBitsHighZero(x, bits[1..]);
      assert (bits + [false])[1..] == bits[1..] + [false];
    }
  }

  lemma ShiftedBit(y: Byte, i: nat)
    requires i < 8
    ensures Bit(ShiftRight(y), i) == if i < 7 then Bit(y, i + 1) else false
  {
  }

  lemma MulUnfold(x: Byte, y: Byte)
    ensures Mul(x, y) == Xor(Select(y.b0, x), XTime(Mul(x, ShiftRight(y))))
  {
    assert Bit(y, 0) == y.b0;
    hide Xor, XTime, Select, ShiftRight, Bit, Mul;
    var bits := seq(8, i requires 0 <= i < 8 => Bit(y, i));
    var next := bits[1..] + [false];
    forall i | 0 <= i < 8 ensures next[i] == Bit(ShiftRight(y), i) { ShiftedBit(y, i); }
    MulIs(x, y, bits); MulIs(x, ShiftRight(y), next);
    MulBitsHighZero(x, bits[1..]);
  }

  lemma {:induction false} MulBitsZero(x: Byte, bits: seq<bool>)
    requires forall i :: 0 <= i < |bits| ==> !bits[i]
    ensures MulBits(x, bits) == Zero
  {
    if bits != [] { MulBitsZero(x, bits[1..]); }
  }

  // ----- addition

  lemma XorCommutes(a: Byte, b: Byte)
    ensures Xor(a, b) == Xor(b, a)
  {
  }

  lemma XorAssociates(a: Byte, b: Byte, c: Byte)
    ensures Xor(Xor(a, b), c) == Xor(a, Xor(b, c))
  {
  }

  lemma XorZero(a: Byte)
    ensures Xor(a, Zero) == a && Xor(Zero, a) == a && Xor(a, a) == Zero
  {
  }

  /** (a + b) + (c + d) == (a + c) + (b + d) */
  lemma XorSwap(a: Byte, b: Byte, c: Byte, d: Byte)
    ensures Xor(Xor(a, b), Xor(c, d)) == Xor(Xor(a, c), Xor(b, d))
  {
    hide *;
    XorAssociates(a, b, Xor(c, d)); XorAssociates(b, c, d);
    XorCommutes(b, c);
    XorAssociates(c, b, d); XorAssociates(a, c, Xor(b, d));
  }

  /** a + b == 0 exactly when a == b */
  lemma XorIsZero(a: Byte, b: Byte)
    ensures Xor(a, b) == Zero <==> a == b
  {
  }

  lemma SelectXor(bit: bool, a: Byte, b: Byte)
    ensures Select(bit, Xor(a, b)) == Xor(Select(bit, a), Select(bit, b))
  {
  }

  lemma SelectOf(p: bool, q: bool, a: Byte)
    ensures Select(p != q, a) == Xor(Select(p, a), Select(q, a))
  {
  }

  lemma XTimeXor(a: Byte, b: Byte)
    ensures XTime(Xor(a, b)) == Xor(XTime(a), XTime(b))
  {
  }

  // ----- the ring laws

  lemma MulZero(a: Byte)
    ensures Mul(a, Zero) == Zero
  {
    hide MulBits, Mul;
    var bits := seq(8, _ => false);
    MulIs(a, Zero, bits);
    MulBitsZero(a, bits);
  }

  /** Multiplication distributes over addition on the left. */
  lemma {:induction false} MulXorLeft(a: Byte, b: Byte, y: Byte)
    ensures Mul(Xor(a, b), y) == Xor(Mul(a, y), Mul(b, y))
    decreases Value(y)
  {
    hide *;
    if y == Zero {
      MulZero(a); MulZero(b); MulZero(Xor(a, b));
      XorZero(Zero);
    } else {
      ShiftRightValue(y);
      var h := ShiftRight(y);
      MulXorLeft(a, b, h);
      MulUnfold(a, y); MulUnfold(b, y); MulUnfold(Xor(a, b), y);
      XTimeXor(Mul(a, h), Mul(b, h));
      SelectXor(y.b0, a, b);
      XorSwap(Select(y.b0, a), Select(y.b0, b), XTime(Mul(a, h)), XTime(Mul(b, h)));
    }
  }

  lemma ShiftRightXor(y: Byte, z: Byte)
    ensures ShiftRight(Xor(y, z)) == Xor(ShiftRight(y), ShiftRight(z))
    ensures Xor(y, z).b0 == (y.b0 != z.b0)
  {
  }

  /** Multiplication distributes over addition on the right. */
  lemma {:induction false} MulXorRight(a: Byte, y: Byte, z: Byte)
    ensures Mul(a, Xor(y, z)) == Xor(Mul(a, y), Mul(a, z))
    decreases Value(y) + Value(z)
  {
    hide *;
    if y == Zero && z == Zero {
      XorZero(Zero); MulZero(a);
    } else {
      ShiftRightValue(y); ShiftRightValue(z);
      var h, k := ShiftRight(y), ShiftRight(z);
      MulXorRight(a, h, k);
      MulUnfold(a, y); MulUnfold(a, z); MulUnfold(a, Xor(y, z));
      ShiftRightXor(y, z);
      SelectOf(y.b0, z.b0, a);
      XTimeXor(Mul(a, h), Mul(a, k));
      XorSwap(Select(y.b0, a), Select(z.b0, a), XTime(Mul(a, h)), XTime(Mul(a, k)));
    }
  }

  lemma SelectXTime(bit: bool, a: Byte)
    ensures Select(bit, XTime(a)) == XTime(Select(bit, a))
  {
  }

  lemma {:induction false} MulXTimeLeft(a: Byte, y: Byte)
    ensures Mul(XTime(a), y) == XTime(Mul(a, y))
    decreases Value(y)
  {
    hide *;
    if y == Zero {
      MulZero(a); MulZero(XTime(a)); SelectXTime(false, a);
      assert XTime(Zero) == Zero by { XTimeZero(); }
    } else {
      ShiftRightValue(y);
      var h := ShiftRight(y);
      MulXTimeLeft(a, h);
      MulUnfold(a, y); MulUnfold(XTime(a), y);
      SelectXTime(y.b0, a);
      XTimeXor(Select(y.b0, a), XTime(Mul(a, h)));
    }
  }

  lemma XTimeZero()
    ensures XTime(Zero) == Zero
  {
  }

  /** A byte is its lowest bit plus x times the rest. */
  lemma SplitLowBit(a: Byte)
    ensures a == Xor(Select(a.b0, One), XTime(ShiftRight(a)))
  {
  }

  lemma {:induction false} MulOneLeft(a: Byte)
    ensures Mul(One, a) == a
    decreases Value(a)
  {
    hide *;
    if a == Zero {
      MulZero(One);
    } else {
      ShiftRightValue(a);
      MulOneLeft(ShiftRight(a));
      MulUnfold(One, a);
      SplitLowBit(a);
    }
  }

  lemma {:induction false} MulZeroLeft(a: Byte)
    ensures Mul(Zero, a) == Zero
  {
    hide *;
    XorZero(Zero);
    MulXorLeft(Zero, Zero, a);
    XorZero(Mul(Zero, a));
  }

  lemma MulSelectLeft(bit: bool, a: Byte)
    ensures Mul(Select(bit, One), a) == Select(bit, a)
  {
    MulOneLeft(a); MulZeroLeft(a);
  }

  /** The field product is commutative. */
  lemma {:induction false} MulCommutes(a: Byte, b: Byte)
    ensures Mul(a, b) == Mul(b, a)
    decreases Value(b)
  {
    hide *;
    if b == Zero {
      MulZeroLeft(a); MulZero(a);
    } else {
      ShiftRightValue(b);
      var h := ShiftRight(b);
      MulCommutes(a, h);
      MulUnfold(a, b);
      SplitLowBit(b);
      MulXorLeft(Select(b.b0, One), XTime(h), a);
      MulSelectLeft(b.b0, a);
      MulXTimeLeft(h, a);
    }
  }

  lemma MulXTimeRight(a: Byte, y: Byte)
    ensures Mul(a, XTime(y)) == XTime(Mul(a, y))
  {
    hide *;
    MulCommutes(a, XTime(y)); MulCommutes(a, y);
    MulXTimeLeft(y, a);
  }

  lemma MulSelectRight(bit: bool, a: Byte, b: Byte)
    ensures Mul(a, Select(bit, b)) == Select(bit, Mul(a, b))
  {
    hide Mul;
    MulZero(a);
  }

  /** The field product is associative. */
  lemma {:induction false} MulAssociates(a: Byte, b: Byte, c: Byte)
    ensures Mul(Mul(a, b), c) == Mul(a, Mul(b, c))
    decreases Value(c)
  {
    hide *;
    if c == Zero {
      MulZero(Mul(a, b)); MulZero(a); MulZero(b);
    } else {
      ShiftRightValue(c);
      var h := ShiftRight(c);
      MulAssociates(a, b, h);
      MulUnfold(Mul(a, b), c); MulUnfold(b, c);
      MulXTimeRight(a, Mul(b, h));
      MulSelectRight(c.b0, a, b);
      MulXorRight(a, Select(c.b0, b), XTime(Mul(b, h)));
    }
  }

  /** 1 is neutral, and multiplication by 0x02 is multiplication by the polynomial x. */
  lemma MulTwo(a: Byte)
    ensures Mul(a, One) == a && Mul(a, Two) == XTime(a)
  {
    hide Mul;
    MulCommutes(a, One); MulOneLeft(a);
    assert Two == XTime(One);
    MulXTimeRight(a, One);
  }

  // ----- the multiplication routine

  /** The routine's `int` accumulator: never more than nine bits. */
  datatype Wide = Wide(b8: bool, low: Byte)

  function XorWide(a: Wide, b: Wide): Wide { Wide(a.b8 != b.b8, Xor(a.low, b.low)) }

  /** Bit i of a byte, as (a >> i) & 1. */
  function Nth(a: Byte, i: nat): bool
    requires i < 8
  {
    ShiftRightBy(a, i).b0
  }

  function ShiftRightBy(a: Byte, n: nat): Byte {
    if n == 0 then a else ShiftRight(ShiftRightBy(a, n - 1))
  }

  /** The n highest bits of a >> n are clear. */
  lemma {:induction false} ShiftedOut(a: Byte, n: nat)
    ensures var b := ShiftRightBy(a, n);
            && (n >= 1 ==> !b.b7) && (n >= 2 ==> !b.b6) && (n >= 3 ==> !b.b5) && (n >= 4 ==> !b.b4)
            && (n >= 5 ==> !b.b3) && (n >= 6 ==> !b.b2) && (n >= 7 ==> !b.b1) && (n >= 8 ==> !b.b0)
  {
    if n != 0 { ShiftedOut(a, n - 1); }
  }

  /** Russian peasant multiplication: the routine computes the field product, and its
      final range check never fails. */
  method Multiply(x: Byte, y: Byte) returns (r: Byte)
    ensures r == Mul(x, y)
  {
    hide Xor, Mul, Select, XTime;
    var z := Wide(false, Zero);
    ShiftedOut(y, 8); MulZero(x);
    for i := 8 downto 0
      invariant !z.b8 && z.low == Mul(x, ShiftRightBy(y, i))
    {
      ghost var before := z.low;
      z := XorWide(Wide(z.low.b7, ShiftLeft(z.low)),
                   if z.low.b7 then Wide(true, Reduction) else Wide(false, Zero));
      assert !z.b8 && z.low == XTime(before) by { SelectIs(before.b7, Reduction); XTimeIsReducedShift(before); }
      z := XorWide(z, Wide(false, if Nth(y, i) then x else Zero));
      MulUnfold(x, ShiftRightBy(y, i));
      SelectIs(Nth(y, i), x);
      XorCommutes(XTime(before), Select(Nth(y, i), x));
    }
    r := z.low;
  }

  lemma SelectIs(bit: bool, a: Byte)
    ensures Select(bit, a) == if bit then a else Zero
  {
  }
}
