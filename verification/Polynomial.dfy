/** Polynomials over GF(2^8), with coefficients from the highest power to the lowest. */
module Polynomial {
  import opened Gf256

  type Poly = seq<Byte>

  /** The value of p at a, by Horner's rule. */
  function Eval(p: Poly, a: Byte): Byte {
    if p == [] then Zero else Xor(Mul(Eval(p[..|p| - 1], a), a), p[|p| - 1])
  }

  function Pow(a: Byte, n: nat): Byte {
    if n == 0 then One else Mul(Pow(a, n - 1), a)
  }

  function Zeros(n: nat): (p: Poly)
    ensures |p| == n
  {
    seq(n, _ => Zero)
  }

  function Add(p: Poly, q: Poly): (r: Poly)
    requires |p| == |q|
    ensures |r| == |p|
  {
    seq(|p|, i requires 0 <= i < |p| => Xor(p[i], q[i]))
  }

  function Scale(p: Poly, c: Byte): (r: Poly)
    ensures |r| == |p|
  {
    seq(|p|, i requires 0 <= i < |p| => Mul(p[i], c))
  }

  /** p * (x - r); subtraction is addition in this field. */
  function MulLinear(p: Poly, r: Byte): (q: Poly)
    ensures |q| == |p| + 1
  {
    Add(p + [Zero], [Zero] + Scale(p, r))
  }

  lemma EvalSnoc(p: Poly, c: Byte, a: Byte)
    ensures Eval(p + [c], a) == Xor(Mul(Eval(p, a), a), c)
  {
    hide Xor, Mul;
    assert (p + [c])[..|p|] == p;
  }

  lemma EvalConstant(c: Byte, a: Byte)
    ensures Eval([c], a) == c
  {
    hide Xor, Mul;
    assert [] + [c] == [c];
    EvalSnoc([], c, a);
    MulZeroLeft(a); XorZero(c);
  }

  lemma MulLinearLead(p: Poly, r: Byte)
    requires p != []
    ensures MulLinear(p, r)[0] == p[0]
  {
    hide Xor, Mul;
    XorZero(p[0]);
  }

  lemma MulLinearAt(p: Poly, r: Byte, m: nat)
    requires m < |p|
    ensures MulLinear(p, r)[m + 1] == if m + 1 < |p| then Xor(Mul(p[m], r), p[m + 1]) else Mul(p[m], r)
  {
    hide Xor, Mul;
    XorZero(Mul(p[m], r));
    if m + 1 < |p| { XorCommutes(p[m + 1], Mul(p[m], r)); }
  }

  lemma EvalEmpty(a: Byte)
    ensures Eval([], a) == Zero
  {
  }

  lemma {:induction false} EvalConcat(p: Poly, q: Poly, a: Byte)
    ensures Eval(p + q, a) == Xor(Mul(Eval(p, a), Pow(a, |q|)), Eval(q, a))
  {
    hide Xor, Mul;
    if q == [] {
      assert p + q == p;
      MulTwo(Eval(p, a)); XorZero(Eval(p, a));
    } else {
      var q', c, n := q[..|q| - 1], q[|q| - 1], |q| - 1;
      EvalConcat(p, q', a);
      assert p + q == (p + q') + [c];
      EvalSnoc(p + q', c, a);
      MulXorLeft(Mul(Eval(p, a), Pow(a, n)), Eval(q', a), a);
      MulAssociates(Eval(p, a), Pow(a, n), a);
      XorAssociates(Mul(Eval(p, a), Pow(a, |q|)), Mul(Eval(q', a), a), c);
    }
  }

  lemma EvalCons(c: Byte, q: Poly, a: Byte)
    ensures Eval([c] + q, a) == Xor(Mul(c, Pow(a, |q|)), Eval(q, a))
  {
    hide Xor, Mul;
    EvalConcat([c], q, a);
    EvalConstant(c, a);
  }

  lemma {:induction false} EvalZeros(n: nat, a: Byte)
    ensures Eval(Zeros(n), a) == Zero
  {
    hide Xor, Mul;
    if n != 0 {
      EvalZeros(n - 1, a);
      assert Zeros(n) == Zeros(n - 1) + [Zero];
      EvalSnoc(Zeros(n - 1), Zero, a);
      MulZeroLeft(a); XorZero(Zero);
    }
  }

  lemma {:induction false} EvalAdd(p: Poly, q: Poly, a: Byte)
    requires |p| == |q|
    ensures Eval(Add(p, q), a) == Xor(Eval(p, a), Eval(q, a))
  {
    hide Xor, Mul;
    if p == [] {
      XorZero(Zero);
    } else {
      var p', q', c, d := p[..|p| - 1], q[..|q| - 1], p[|p| - 1], q[|q| - 1];
      EvalAdd(p', q', a);
      assert Add(p, q) == Add(p', q') + [Xor(c, d)];
      EvalSnoc(Add(p', q'), Xor(c, d), a);
      MulXorLeft(Eval(p', a), Eval(q', a), a);
      XorSwap(Mul(Eval(p', a), a), Mul(Eval(q', a), a), c, d);
    }
  }

  lemma {:induction false} EvalScale(p: Poly, c: Byte, a: Byte)
    ensures Eval(Scale(p, c), a) == Mul(Eval(p, a), c)
  {
    hide Xor, Mul;
    if p == [] {
      MulZeroLeft(c);
    } else {
      var p', d := p[..|p| - 1], p[|p| - 1];
      EvalScale(p', c, a);
      assert Scale(p, c) == Scale(p', c) + [Mul(d, c)];
      EvalSnoc(Scale(p', c), Mul(d, c), a);
      var v := Eval(p', a);
      MulAssociates(v, c, a); MulCommutes(c, a); MulAssociates(v, a, c);
      MulXorLeft(Mul(v, a), d, c);
    }
  }

  /** Multiplying by (x - r) multiplies the value at a by (a - r). */
  lemma EvalMulLinear(p: Poly, r: Byte, a: Byte)
    ensures Eval(MulLinear(p, r), a) == Mul(Eval(p, a), Xor(a, r))
  {
    hide Xor, Mul, Eval, Scale, Pow;
    EvalAdd(p + [Zero], [Zero] + Scale(p, r), a);
    EvalSnoc(p, Zero, a); XorZero(Mul(Eval(p, a), a));
    EvalCons(Zero, Scale(p, r), a); MulZeroLeft(Pow(a, |p|)); XorZero(Eval(Scale(p, r), a));
    EvalScale(p, r, a);
    MulXorRight(Eval(p, a), a, r);
  }

  lemma {:induction false} PowSum(a: Byte, m: nat, n: nat)
    ensures Pow(a, m + n) == Mul(Pow(a, m), Pow(a, n))
  {
    hide Xor, Mul;
    if n == 0 {
      MulTwo(Pow(a, m));
    } else {
      PowSum(a, m, n - 1);
      MulAssociates(Pow(a, m), Pow(a, n - 1), a);
    }
  }

  function Times(m: nat, n: nat): (p: nat)
    ensures p == m * n
  {
    m * n
  }

  lemma {:induction false} PowPow(a: Byte, m: nat, n: nat)
    ensures Pow(Pow(a, m), n) == Pow(a, Times(m, n))
  {
    hide Xor, Mul;
    if n != 0 {
      PowPow(a, m, n - 1);
      PowSum(a, Times(m, n - 1), m);
      assert m * (n - 1) + m == m * n;
    }
  }
}
