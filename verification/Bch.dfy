/** The cyclic codes that protect format and version information: numbers as polynomials over GF(2),
    and the shifting division of the encoder. */
module Bch {
  import opened BitBuffers

  /** The bitwise exclusive or. */
  function XorNat(a: nat, b: nat): nat
    decreases a + b
  {
    if a == 0 && b == 0 then 0 else 2 * XorNat(a / 2, b / 2) + (a + b) % 2
  }

  lemma {:induction false} XorSelf(a: nat)
    ensures XorNat(a, a) == 0
  {
    if a != 0 { XorSelf(a / 2); }
  }

  lemma {:induction false} XorZeroRight(a: nat)
    ensures XorNat(a, 0) == a
  {
    if a != 0 { XorZeroRight(a / 2); }
  }

  lemma {:induction false} XorCommutes(a: nat, b: nat)
    ensures XorNat(a, b) == XorNat(b, a)
    decreases a + b
  {
    if a != 0 || b != 0 { XorCommutes(a / 2, b / 2); }
  }

  lemma XorParts(a: nat, b: nat)
    ensures XorNat(a, b) / 2 == XorNat(a / 2, b / 2) && XorNat(a, b) % 2 == (a + b) % 2
  {
  }

  lemma {:induction false} XorAssociates(a: nat, b: nat, c: nat)
    ensures XorNat(XorNat(a, b), c) == XorNat(a, XorNat(b, c))
    decreases a + b + c
  {
    hide XorNat;
    if a == 0 && b == 0 && c == 0 {
      XorZeroRight(0);
    } else {
      XorAssociates(a / 2, b / 2, c / 2);
      var ab, bc := XorNat(a, b), XorNat(b, c);
      XorParts(a, b); XorParts(b, c); XorParts(ab, c); XorParts(a, bc);
      Parity(ab, a + b, c); Parity(bc, b + c, a);
    }
  }

  lemma Parity(x: nat, y: nat, c: nat)
    requires x % 2 == y % 2
    ensures (x + c) % 2 == (y + c) % 2
  {
  }

  lemma {:induction false} XorIsZero(a: nat, b: nat)
    ensures XorNat(a, b) == 0 <==> a == b
    decreases a + b
  {
    if a != 0 || b != 0 { XorIsZero(a / 2, b / 2); }
  }

  lemma XorDouble(a: nat, b: nat)
    ensures XorNat(2 * a, 2 * b) == 2 * XorNat(a, b)
  {
    hide XorNat;
    XorParts(2 * a, 2 * b);
    assert 2 * a / 2 == a && 2 * b / 2 == b && (2 * a + 2 * b) % 2 == 0;
  }

  /** a + b == (a + c) + (c + b) in characteristic 2. */
  lemma XorThrough(a: nat, b: nat, c: nat)
    ensures XorNat(XorNat(a, c), XorNat(c, b)) == XorNat(a, b)
  {
    hide XorNat;
    XorAssociates(a, c, XorNat(c, b));
    XorAssociates(c, c, b);
    XorSelf(c); XorCommutes(0, b); XorZeroRight(b);
  }

  // ----- sizes

  lemma {:induction false} XorBelow(a: nat, b: nat, n: nat)
    requires a < Pow2(n) && b < Pow2(n)
    ensures XorNat(a, b) < Pow2(n)
    decreases n
  {
    if n > 0 { XorBelow(a / 2, b / 2, n - 1); }
  }

  /** Two leading bits in the same place cancel. */
  lemma {:induction false} XorCancels(a: nat, b: nat, n: nat)
    requires Pow2(n) <= a < Pow2(n + 1) && Pow2(n) <= b < Pow2(n + 1)
    ensures XorNat(a, b) < Pow2(n)
  {
    if n > 0 { XorCancels(a / 2, b / 2, n - 1); } else { assert a == 1 && b == 1 && XorNat(1, 1) == 0; }
  }

  /** A leading bit beyond the other number stays. */
  lemma {:induction false} XorKeeps(a: nat, b: nat, n: nat)
    requires Pow2(n) <= a < Pow2(n + 1) && b < Pow2(n)
    ensures Pow2(n) <= XorNat(a, b) < Pow2(n + 1)
  {
    if n > 0 { XorKeeps(a / 2, b / 2, n - 1); } else { assert a == 1 && b == 0 && XorNat(1, 0) == 1; }
  }

  /** Numbers without common bits: the exclusive or is the sum. */
  lemma {:induction false} XorDisjoint(d: nat, r: nat, n: nat)
    requires r < Pow2(n)
    ensures XorNat(Shifted(d, n), r) == Shifted(d, n) + r
    decreases n
  {
    hide XorNat;
    if n == 0 {
      XorZeroRight(d);
    } else {
      XorDisjoint(d, r / 2, n - 1);
      XorParts(Shifted(d, n), r);
    }
  }

  // ----- multiples of a generator

  /** d << n */
  function Shifted(d: nat, n: nat): nat { if n == 0 then d else 2 * Shifted(d, n - 1) }

  lemma {:induction false} ShiftedIs(d: nat, n: nat)
    ensures Shifted(d, n) == d * Pow2(n)
  {
    if n > 0 { ShiftedIs(d, n - 1); }
  }

  /** The product of two polynomials. */
  function Product(g: nat, q: nat): nat {
    if q == 0 then 0 else XorNat(if q % 2 == 1 then g else 0, 2 * Product(g, q / 2))
  }

  ghost predicate Multiple(g: nat, v: nat) { exists q :: v == Product(g, q) }

  lemma {:induction false} ProductXor(g: nat, p: nat, q: nat)
    ensures Product(g, XorNat(p, q)) == XorNat(Product(g, p), Product(g, q))
    decreases p + q
  {
    hide Product, XorNat;
    if p == 0 && q == 0 {
      XorZeroRight(0); NoProduct(g);
    } else {
      ProductXor(g, p / 2, q / 2);
      ProductUnfold(g, p); ProductUnfold(g, q); ProductUnfold(g, XorNat(p, q));
      XorParts(p, q);
      var a, b := if p % 2 == 1 then g else 0, if q % 2 == 1 then g else 0;
      var x, y := 2 * Product(g, p / 2), 2 * Product(g, q / 2);
      XorDouble(Product(g, p / 2), Product(g, q / 2));
      XorSelf(g); XorZeroRight(g); XorCommutes(0, g); XorZeroRight(0);
      XorPairs(a, x, b, y);
    }
  }

  lemma NoProduct(g: nat)
    ensures Product(g, 0) == 0
  {
  }

  lemma ProductUnfold(g: nat, q: nat)
    ensures Product(g, q) == XorNat(if q % 2 == 1 then g else 0, 2 * Product(g, q / 2))
  {
  }

  lemma XorPairs(a: nat, x: nat, b: nat, y: nat)
    ensures XorNat(XorNat(a, x), XorNat(b, y)) == XorNat(XorNat(a, b), XorNat(x, y))
  {
    hide XorNat;
    XorAssociates(a, x, XorNat(b, y)); XorAssociates(x, b, y); XorCommutes(x, b);
    XorAssociates(b, x, y); XorAssociates(a, b, XorNat(x, y));
  }

  lemma MultipleXor(g: nat, u: nat, v: nat)
    requires Multiple(g, u) && Multiple(g, v)
    ensures Multiple(g, XorNat(u, v))
  {
    hide Product, XorNat;
    var p :| u == Product(g, p);
    var q :| v == Product(g, q);
    ProductXor(g, p, q);
  }

  lemma MultipleDouble(g: nat, u: nat)
    requires Multiple(g, u)
    ensures Multiple(g, 2 * u)
  {
    hide Product, XorNat;
    var p: nat :| u == Product(g, p);
    ProductUnfold(g, 2 * p);
    XorCommutes(0, 2 * u); XorZeroRight(2 * u);
    assert 2 * u == Product(g, 2 * p);
  }

  lemma MultipleSmall(g: nat, b: nat)
    requires b <= 1
    ensures Multiple(g, b * g)
  {
    hide Product, XorNat;
    ProductUnfold(g, 1); NoProduct(g);
    XorZeroRight(g);
    assert b * g == Product(g, b);
  }

  /** The degree of a product is the sum of the degrees. */
  lemma {:induction false} ProductSize(g: nat, q: nat, d: nat, t: nat)
    requires Pow2(d) <= g < Pow2(d + 1) && Pow2(t) <= q < Pow2(t + 1)
    ensures Pow2(d + t) <= Product(g, q) < Pow2(d + t + 1)
    decreases t
  {
    hide Product, XorNat;
    ProductUnfold(g, q);
    if t == 0 {
      assert q == 1;
      NoProduct(g); XorZeroRight(g);
    } else {
      ProductSize(g, q / 2, d, t - 1);
      var high := 2 * Product(g, q / 2);
      XorCommutes(if q % 2 == 1 then g else 0, high);
      if q % 2 == 1 {
        PowGrows(d + 1, d + t);
        XorKeeps(high, g, d + t);
      } else {
        XorZeroRight(high);
      }
    }
  }

  lemma {:induction false} PowGrows(m: nat, n: nat)
    requires m <= n
    ensures Pow2(m) <= Pow2(n)
  {
    if m < n { PowGrows(m, n - 1); }
  }

  lemma {:induction false} Leading(q: nat) returns (t: nat)
    requires q > 0
    ensures Pow2(t) <= q < Pow2(t + 1)
  {
    if q == 1 {
      t := 0;
    } else {
      var s := Leading(q / 2);
      t := s + 1;
    }
  }

  /** A multiple of a generator of degree d that is below 2^d is 0. */
  lemma SmallMultiple(g: nat, v: nat, d: nat)
    requires Pow2(d) <= g < Pow2(d + 1) && Multiple(g, v) && v < Pow2(d)
    ensures v == 0
  {
    var q :| v == Product(g, q);
    if q != 0 {
      var t := Leading(q);
      ProductSize(g, q, d, t);
      PowGrows(d, d + t);
    }
  }

  // ----- the shifting division

  /** One step, for a generator of degree d. */
  function DivisionStep(rem: nat, g: nat, d: nat): nat
    requires d >= 1
  {
    XorNat(2 * rem, rem / Pow2(d - 1) * g)
  }

  /** The register after n steps. */
  function Division(data: nat, g: nat, d: nat, n: nat): nat
    requires d >= 1
  {
    if n == 0 then data else DivisionStep(Division(data, g, d, n - 1), g, d)
  }

  /** The bit that a step shifts out is cleared by the leading bit of the generator. */
  lemma StepFits(rem: nat, g: nat, d: nat)
    requires d >= 1 && Pow2(d) <= g < Pow2(d + 1) && rem < Pow2(d)
    ensures DivisionStep(rem, g, d) < Pow2(d) && Multiple(g, XorNat(2 * rem, DivisionStep(rem, g, d)))
  {
    hide XorNat, Multiple;
    var half := Pow2(d - 1);
    var b := rem / half;
    assert Pow2(d) == 2 * half && Pow2(d + 1) == 2 * Pow2(d);
    assert b == if rem < half then 0 else 1;
    if b == 0 { XorZeroRight(2 * rem); } else { XorCancels(2 * rem, g, d); }
    MultipleSmall(g, b);
    XorAssociates(2 * rem, 2 * rem, b * g); XorSelf(2 * rem); XorCommutes(0, b * g); XorZeroRight(b * g);
  }

  lemma {:induction false} DivisionFits(data: nat, g: nat, d: nat, n: nat)
    requires d >= 1 && Pow2(d) <= g < Pow2(d + 1) && data < Pow2(d)
    ensures Division(data, g, d, n) < Pow2(d) && Multiple(g, XorNat(Shifted(data, n), Division(data, g, d, n)))
  {
    hide XorNat, Multiple, DivisionStep;
    if n == 0 {
      XorSelf(data);
      MultipleSmall(g, 0);
    } else {
      DivisionFits(data, g, d, n - 1);
      var rem := Division(data, g, d, n - 1);
      StepFits(rem, g, d);
      MultipleDouble(g, XorNat(Shifted(data, n - 1), rem));
      XorDouble(Shifted(data, n - 1), rem);
      MultipleXor(g, XorNat(Shifted(data, n), 2 * rem), XorNat(2 * rem, DivisionStep(rem, g, d)));
      XorThrough(Shifted(data, n), DivisionStep(rem, g, d), 2 * rem);
    }
  }

  /** After n steps the register holds the remainder of data * x^n: the only number of its size that
      completes the shifted data to a multiple of the generator. */
  lemma DivisionIsRemainder(data: nat, g: nat, d: nat, n: nat, r: nat)
    requires d >= 1 && Pow2(d) <= g < Pow2(d + 1) && data < Pow2(d) && r < Pow2(d)
    ensures Multiple(g, XorNat(Shifted(data, n), r)) <==> r == Division(data, g, d, n)
  {
    hide XorNat, Multiple, Division, Shifted;
    DivisionFits(data, g, d, n);
    var rem, high := Division(data, g, d, n), Shifted(data, n);
    if Multiple(g, XorNat(high, r)) {
      MultipleXor(g, XorNat(high, r), XorNat(high, rem));
      XorCommutes(high, r);
      XorThrough(r, rem, high);
      XorBelow(r, rem, d);
      SmallMultiple(g, XorNat(r, rem), d);
      XorIsZero(r, rem);
    }
  }
}
