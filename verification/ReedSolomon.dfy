/** The Reed-Solomon routines of the encoder: the generator polynomial, polynomial division,
    and the codeword property of their combination. */
module ReedSolomon {
  import opened Gf256
  import opened Polynomial
  import opened Wrappers

  /** The i-th root of the generator polynomial, 2^i. */
  function Root(i: nat): Byte { Pow(Two, i) }

  /** (x - 2^0)(x - 2^1)...(x - 2^(d-1)), all d + 1 coefficients. */
  function Generator(d: nat): (g: Poly)
    ensures |g| == d + 1
  {
    if d == 0 then [One] else MulLinear(Generator(d - 1), Root(d - 1))
  }

  /** (a - 2^0)(a - 2^1)...(a - 2^(d-1)) */
  function RootProduct(d: nat, a: Byte): Byte {
    if d == 0 then One else Mul(RootProduct(d - 1, a), Xor(a, Root(d - 1)))
  }

  /** The generator is the product of its linear factors, as a function ... */
  lemma {:induction false} GeneratorIsProduct(d: nat, a: Byte)
    ensures Eval(Generator(d), a) == RootProduct(d, a)
  {
    hide Xor, Mul, MulLinear, Pow, Eval;
    if d == 0 {
      EvalConstant(One, a);
    } else {
      GeneratorIsProduct(d - 1, a);
      EvalMulLinear(Generator(d - 1), Root(d - 1), a);
    }
  }

  /** ... and with leading coefficient 1. */
  lemma {:induction false} GeneratorIsMonic(d: nat)
    ensures Generator(d)[0] == One
  {
    hide Xor, Mul, MulLinear, Pow;
    if d > 0 {
      GeneratorIsMonic(d - 1);
      MulLinearLead(Generator(d - 1), Root(d - 1));
    }
  }

  lemma {:induction false} RootProductVanishes(d: nat, j: nat)
    requires j < d
    ensures RootProduct(d, Root(j)) == Zero
  {
    hide Xor, Mul;
    if j == d - 1 {
      XorZero(Root(j));
      MulZero(RootProduct(d - 1, Root(j)));
    } else {
      RootProductVanishes(d - 1, j);
      MulZeroLeft(Xor(Root(j), Root(d - 1)));
    }
  }

  /** What the divisor array holds after i rounds: the partial product, padded in front with
      zeros, until the last round drops the leading term. */
  ghost function AfterRounds(degree: nat, i: nat): (p: Poly)
    requires 1 <= degree && i <= degree
    ensures |p| == degree
  {
    if i < degree then Zeros(degree - 1 - i) + Generator(i) else Generator(degree)[1..]
  }

  /** One round of the in-place loop: multiply by (x - r) and drop the highest coefficient. */
  lemma RoundStep(degree: nat, i: nat, s: Poly, t: Poly)
    requires 1 <= degree && i < degree
    requires s == AfterRounds(degree, i) && |t| == degree
    requires forall j :: 0 <= j < degree - 1 ==> t[j] == Xor(Mul(s[j], Root(i)), s[j + 1])
    requires t[degree - 1] == Mul(s[degree - 1], Root(i))
    ensures t == AfterRounds(degree, i + 1)
  {
    hide Xor, Mul, Pow, MulLinear;
    var k, g, r := degree - 1 - i, Generator(i), Root(i);
    var next := MulLinear(g, r);
    assert next == Generator(i + 1);
    forall j | 0 <= j < degree
      ensures t[j] == AfterRounds(degree, i + 1)[j]
    {
      MulZeroLeft(r);
      if j + 1 < k {
        assert s[j] == Zero && s[j + 1] == Zero;
        XorZero(Zero);
      } else if j + 1 == k {
        assert s[j] == Zero && s[j + 1] == g[0];
        XorZero(g[0]);
        MulLinearLead(g, r);
      } else {
        assert s[j] == g[j - k];
        assert j + 1 < degree ==> s[j + 1] == g[j - k + 1];
        MulLinearAt(g, r, j - k);
        assert AfterRounds(degree, i + 1)[j] == next[j - k + 1];
      }
    }
  }

  /** One round in place: multiplies by (x - root), keeping the lowest coefficients. */
  method MultiplyRound(result: array<Byte>, root: Byte)
    requires result.Length >= 1
    modifies result
    ensures var n, s := result.Length, old(result[..]);
            && (forall j :: 0 <= j < n - 1 ==> result[j] == Xor(Mul(s[j], root), s[j + 1]))
            && result[n - 1] == Mul(s[n - 1], root)
  {
    hide Xor, Mul;
    ghost var s := result[..];
    for j := 0 to result.Length
      invariant forall k :: j <= k < result.Length ==> result[k] == s[k]
      invariant forall k :: 0 <= k < j && k < result.Length - 1 ==> result[k] == Xor(Mul(s[k], root), s[k + 1])
      invariant j == result.Length ==> result[j - 1] == Mul(s[j - 1], root)
    {
      var product := Multiply(result[j], root);
      result[j] := product;
      if j + 1 < result.Length {
        result[j] := Xor(result[j], result[j + 1]);
      }
    }
  }

  /** Computes the generator polynomial in place; None is the range exception. */
  method ComputeDivisor(degree: int) returns (r: Option<Poly>)
    ensures r.Some? <==> 1 <= degree <= 255
    ensures r.Some? ==> r.value == Generator(degree)[1..]
  {
    hide Xor, Mul, Pow, Generator, Polynomial.Zeros;
    if degree < 1 || degree > 255 { return None; }
    var result := new Byte[degree](_ => Zero);
    result[degree - 1] := One;
    StartState(degree, result[..]);
    var root := One;
    RootStep(0);
    for i := 0 to degree
      invariant root == Root(i)
      invariant result[..] == AfterRounds(degree, i)
    {
      ghost var s := result[..];
      MultiplyRound(result, root);
      RoundStep(degree, i, s, result[..]);
      root := Multiply(root, Two);
      RootStep(i);
    }
    return Some(result[..]);
  }

  lemma RootStep(i: nat)
    ensures Root(0) == One && Root(i + 1) == Mul(Root(i), Two)
  {
  }

  lemma StartState(degree: nat, s: Poly)
    requires 1 <= degree == |s| && s[degree - 1] == One
    requires forall k :: 0 <= k < degree - 1 ==> s[k] == Zero
    ensures s == AfterRounds(degree, 0)
  {
    hide Xor, Mul;
  }

  /** One step of the division: bring down a coefficient and subtract a multiple of the divisor. */
  function DivisionStep(rem: Poly, divisor: Poly, b: Byte): (next: Poly)
    requires |rem| == |divisor| >= 1
    ensures |next| == |rem|
  {
    Add(rem[1..] + [Zero], Scale(divisor, Xor(b, rem[0])))
  }

  /** The remainder of data * x^n by x^n + divisor, where n is the length of the divisor. */
  function Remainder(data: Poly, divisor: Poly): (rem: Poly)
    requires |divisor| >= 1
    ensures |rem| == |divisor|
  {
    if data == [] then Zeros(|divisor|)
    else DivisionStep(Remainder(data[..|data| - 1], divisor), divisor, data[|data| - 1])
  }

  /** Polynomial division; None is the out-of-range exception for an empty divisor. */
  method ComputeRemainder(data: Poly, divisor: Poly) returns (r: Option<Poly>)
    ensures r.Some? <==> data == [] || divisor != []
    ensures r.Some? && divisor != [] ==> r.value == Remainder(data, divisor)
    ensures r.Some? && divisor == [] ==> r.value == []
  {
    hide Xor, Mul;
    var result := Zeros(|divisor|);
    for n := 0 to |data|
      invariant |result| == |divisor|
      invariant n > 0 ==> divisor != []
      invariant divisor != [] ==> result == Remainder(data[..n], divisor)
    {
      if |result| == 0 { return None; }
      ghost var rem := result;
      var factor := Xor(data[n], result[0]);
      result := result[1..] + [Zero];
      ghost var shifted := result;
      for i := 0 to |divisor|
        invariant |result| == |divisor|
        invariant forall k :: 0 <= k < i ==> result[k] == Xor(shifted[k], Mul(divisor[k], factor))
        invariant forall k :: i <= k < |divisor| ==> result[k] == shifted[k]
      {
        var product := Multiply(divisor[i], factor);
        result := result[i := Xor(result[i], product)];
      }
      assert result == DivisionStep(rem, divisor, data[n]);
      assert data[..n + 1][..n] == data[..n];
    }
    assert data[..|data|] == data;
    return Some(result);
  }

  /** One division step, seen at a root a of the divisor: the value of the data read so far times
      a^n, plus the value of the remainder, stays zero. */
  lemma {:induction false} RemainderAtRoot(data: Poly, divisor: Poly, a: Byte)
    requires |divisor| >= 1
    requires Eval([One] + divisor, a) == Zero
    ensures Mul(Eval(data, a), Pow(a, |divisor|)) == Eval(Remainder(data, divisor), a)
  {
    hide Xor, Mul, Eval, Pow, Scale, Add;
    var n := |divisor|;
    if data == [] {
      EvalEmpty(a);
      MulZeroLeft(Pow(a, n));
      EvalZeros(n, a);
    } else {
      var prefix, b := data[..|data| - 1], data[|data| - 1];
      var rem := Remainder(prefix, divisor);
      RemainderAtRoot(prefix, divisor, a);
      var factor := Xor(b, rem[0]);
      EvalAdd(rem[1..] + [Zero], Scale(divisor, factor), a);
      EvalScale(divisor, factor, a);
      DivisorAtRoot(divisor, a);
      EvalSnoc(rem[1..], Zero, a); XorZero(Mul(Eval(rem[1..], a), a));
      assert rem == [rem[0]] + rem[1..];
      EvalCons(rem[0], rem[1..], a);
      EvalSnoc(prefix, b, a);
      assert prefix + [b] == data;
      StepAlgebra(Eval(prefix, a), b, rem[0], Eval(rem[1..], a), a, n);
    }
  }

  lemma DivisorAtRoot(divisor: Poly, a: Byte)
    requires Eval([One] + divisor, a) == Zero
    ensures Eval(divisor, a) == Pow(a, |divisor|)
  {
    hide Xor, Mul, Eval, Pow;
    EvalCons(One, divisor, a);
    MulOneLeft(Pow(a, |divisor|));
    XorIsZero(Pow(a, |divisor|), Eval(divisor, a));
  }

  /** With d * a^n == r * a^(n-1) + t, the next value (d * a + b) * a^n is t * a + a^n * (b + r). */
  lemma StepAlgebra(d: Byte, b: Byte, r: Byte, t: Byte, a: Byte, n: nat)
    requires n >= 1
    requires Mul(d, Pow(a, n)) == Xor(Mul(r, Pow(a, n - 1)), t)
    ensures Mul(Xor(Mul(d, a), b), Pow(a, n)) == Xor(Mul(t, a), Mul(Pow(a, n), Xor(b, r)))
  {
    hide Xor, Mul;
    var w := Pow(a, n);
    MulXorLeft(Mul(d, a), b, w);
    MulAssociates(d, a, w); MulCommutes(a, w); MulAssociates(d, w, a);
    assert Mul(Mul(d, a), w) == Mul(Mul(d, w), a);
    MulXorLeft(Mul(r, Pow(a, n - 1)), t, a);
    MulAssociates(r, Pow(a, n - 1), a);
    assert Mul(Mul(d, w), a) == Xor(Mul(r, w), Mul(t, a));
    MulXorRight(w, b, r); MulCommutes(w, b); MulCommutes(w, r);
    XorCommutes(Mul(r, w), Mul(t, a));
    XorAssociates(Mul(t, a), Mul(r, w), Mul(b, w));
    XorCommutes(Mul(r, w), Mul(b, w));
  }

  /** A word is a codeword of degree d when it vanishes at 2^0, ..., 2^(d-1). */
  ghost predicate Codeword(word: Poly, d: nat) {
    forall j :: 0 <= j < d ==> Eval(word, Root(j)) == Zero
  }

  /** Data followed by its remainder by the generator polynomial is a Reed-Solomon codeword. */
  lemma EncodedIsCodeword(data: Poly, d: nat)
    requires 1 <= d
    ensures Codeword(data + Remainder(data, Generator(d)[1..]), d)
  {
    hide Xor, Mul, Eval, Pow, Generator, RootProduct, Remainder;
    var divisor := Generator(d)[1..];
    var rem := Remainder(data, divisor);
    forall j | 0 <= j < d
      ensures Eval(data + rem, Root(j)) == Zero
    {
      var a := Root(j);
      GeneratorIsProduct(d, a); GeneratorIsMonic(d);
      RootProductVanishes(d, j);
      assert [One] + divisor == Generator(d);
      RemainderAtRoot(data, divisor, a);
      EvalConcat(data, rem, a);
      XorZero(Eval(rem, a));
    }
  }
}
