/** The error-correcting power of the Reed-Solomon blocks: two different codewords of degree d
    differ in more than d bytes. */
module ReedSolomonDistance {
  import opened Gf256
  import opened Polynomial
  import opened ReedSolomon

  // ----- multiplication by a power of 2 fixes no non-zero byte

  ghost predicate Fixes(k: nat, v: Byte) { Mul(v, Root(k)) == v }

  lemma FixesSum(a: nat, b: nat, v: Byte)
    requires Fixes(b, v)
    ensures Fixes(a + b, v) <==> Fixes(a, v)
  {
    hide Xor, Mul, Pow;
    PowSum(Two, a, b);
    MulCommutes(Root(a), Root(b));
    MulAssociates(v, Root(b), Root(a));
  }

  lemma {:induction false} FixesMultiple(k: nat, m: nat, v: Byte)
    requires Fixes(k, v)
    ensures Fixes(Times(k, m), v)
  {
    hide Xor, Mul;
    if m == 0 {
      MulTwo(v);
    } else {
      FixesMultiple(k, m - 1, v);
      FixesSum(Times(k, m - 1), k, v);
      assert k * (m - 1) + k == k * m;
    }
  }

  lemma FixesPeriods(period: nat, a: nat, n: nat, v: Byte)
    requires Root(period) == One
    ensures Fixes(a + Times(period, n), v) <==> Fixes(a, v)
  {
    hide Xor, Mul, Pow;
    MulTwo(v);
    FixesMultiple(period, n, v);
    FixesSum(a, Times(period, n), v);
  }

  /** If k has the inverse s modulo w, then what k fixes, the period divided by w fixes. */
  lemma FixesQuotient(period: nat, q: nat, w: nat, k: nat, s: nat, m: nat, v: Byte)
    requires Root(period) == One && period == q * w
    requires Fixes(k, v) && k * s == 1 + w * m
    ensures Fixes(q, v)
  {
    hide *;
    FixesMultiple(k, Times(s, q), v);
    FixesPeriods(period, q, m, v);
    assert k * (s * q) == (1 + w * m) * q == q + (q * w) * m;
  }

  /** The inverse modulo 3, 5 or 17 of a number that is not a multiple. */
  lemma Inverse(w: nat, k: nat) returns (s: nat, m: nat)
    requires w == 3 || w == 5 || w == 17
    requires k % w != 0
    ensures k * s == 1 + w * m
  {
    var r, q := k % w, k / w;
    s := InverseOf(w, r);
    var t := r * s / w;
    m := Times(q, s) + t;
    InverseLifts(w, q, r, s, t);
  }

  lemma InverseLifts(w: nat, q: nat, r: nat, s: nat, t: nat)
    requires r * s == 1 + w * t
    ensures (w * q + r) * s == 1 + w * (Times(q, s) + t)
  {
    assert (w * q + r) * s == w * (q * s) + r * s;
    assert w * (q * s + t) == w * (q * s) + w * t;
  }

  lemma InverseOf(w: nat, r: nat) returns (s: nat)
    requires (w == 3 || w == 5 || w == 17) && 0 < r < w
    ensures s > 0 && r * s == 1 + w * (r * s / w)
  {
    var inverses :=
      if w == 3 then [0, 1, 2]
      else if w == 5 then [0, 1, 3, 2, 4]
      else [0, 1, 9, 6, 13, 7, 3, 5, 15, 2, 12, 14, 10, 4, 11, 8, 16];
    s := inverses[r];
  }

  /** 2^m * 2^n == 2^(m + n), on given values. */
  lemma RootAdd(m: nat, n: nat, p: Byte, q: Byte, r: Byte)
    requires Root(m) == p && Root(n) == q && MulUnrolled(p, q) == r
    ensures Root(m + n) == r
  {
    hide Mul, MulUnrolled, Pow;
    PowSum(Two, m, n);
    MulUnrolledIsMul(p, q);
  }

  const R15 := Byte(false, false, true, false, false, true, true, false)  // 0x26
  const R16 := Byte(false, true, false, false, true, true, false, false)  // 0x4C
  const R32 := Byte(true, false, false, true, true, true, false, true)  // 0x9D
  const R48 := Byte(false, true, false, false, false, true, true, false)  // 0x46
  const R51 := Byte(false, false, false, false, true, false, true, false)  // 0x0A
  const R64 := Byte(false, true, false, true, true, true, true, true)  // 0x5F
  const R80 := Byte(true, true, true, true, true, true, false, true)  // 0xFD
  const R85 := Byte(true, true, false, true, false, true, true, false)  // 0xD6
  const R170 := Byte(true, true, false, true, false, true, true, true)  // 0xD7
  const R255 := Byte(false, false, false, false, false, false, false, true)  // 0x01

  /** Horner's rule unrolled over the eight bits of y. */
  function MulUnrolled(x: Byte, y: Byte): Byte {
    var z6 := Xor(Select(y.b6, x), XTime(Select(y.b7, x)));
    var z5 := Xor(Select(y.b5, x), XTime(z6));
    var z4 := Xor(Select(y.b4, x), XTime(z5));
    var z3 := Xor(Select(y.b3, x), XTime(z4));
    var z2 := Xor(Select(y.b2, x), XTime(z3));
    var z1 := Xor(Select(y.b1, x), XTime(z2));
    Xor(Select(y.b0, x), XTime(z1))
  }

  lemma MulUnrolledIsMul(x: Byte, y: Byte)
    ensures Mul(x, y) == MulUnrolled(x, y)
  {
    hide Mul, Xor, XTime, Select;
    var y1 := ShiftRight(y); var y2 := ShiftRight(y1); var y3 := ShiftRight(y2); var y4 := ShiftRight(y3);
    var y5 := ShiftRight(y4); var y6 := ShiftRight(y5); var y7 := ShiftRight(y6);
    MulUnfold(x, y); MulUnfold(x, y1); MulUnfold(x, y2); MulUnfold(x, y3);
    MulUnfold(x, y4); MulUnfold(x, y5); MulUnfold(x, y6); MulUnfold(x, y7);
    MulZero(x); XTimeZero(); XorZero(Select(y.b7, x));
  }

  lemma Product32()
    ensures MulUnrolled(R16, R16) == R32
  {
  }

  lemma Product48()
    ensures MulUnrolled(R16, R32) == R48
  {
  }

  lemma Product64()
    ensures MulUnrolled(R32, R32) == R64
  {
  }

  lemma Product80()
    ensures MulUnrolled(R16, R64) == R80
  {
  }

  lemma Product170()
    ensures MulUnrolled(R85, R85) == R170
  {
  }

  lemma Product255()
    ensures MulUnrolled(R85, R170) == R255
  {
  }

  lemma RootNext(n: nat)
    ensures Root(n + 1) == XTime(Root(n))
  {
    hide Mul, XTime;
    MulTwo(Root(n));
  }

  /** The powers of 2 whose exponents are 255 and its quotients by 17, 5 and 3. */
  lemma RootValues(n15: nat, n51: nat, n85: nat, period: nat)
    requires period + 1 == 256 && 17 * n15 == 5 * n51 == 3 * n85 == period
    ensures Root(n15) == R15 && Root(n51) == R51 && Root(n85) == R85 && Root(period) == One
  {
    hide Mul, MulUnrolled, Pow;
    RootStep(0);
    RootNext(0); RootNext(1); RootNext(2); RootNext(3); RootNext(4); RootNext(5); RootNext(6); RootNext(7);
    RootNext(8); RootNext(9); RootNext(10); RootNext(11); RootNext(12); RootNext(13); RootNext(14); RootNext(15);
    Product32(); RootAdd(16, 16, R16, R16, R32);
    Product48(); RootAdd(16, 32, R16, R32, R48);
    RootNext(48); RootNext(49); RootNext(50);
    Product64(); RootAdd(32, 32, R32, R32, R64);
    Product80(); RootAdd(16, 64, R16, R64, R80);
    RootNext(80); RootNext(81); RootNext(82); RootNext(83); RootNext(84);
    Product170(); RootAdd(85, 85, R85, R85, R170);
    Product255(); RootAdd(85, 170, R85, R170, R255);
  }

  lemma FixedBy15(v: Byte)
    requires MulUnrolled(v, R15) == v
    ensures v == Zero
  {
  }

  lemma FixedBy51(v: Byte)
    requires MulUnrolled(v, R51) == v
    ensures v == Zero
  {
  }

  lemma FixedBy85(v: Byte)
    requires MulUnrolled(v, R85) == v
    ensures v == Zero
  {
  }

  lemma FixedByQuotient(period: nat, q: nat, w: nat, k: nat, r: Byte, v: Byte)
    requires Root(period) == One && period == q * w && (w == 3 || w == 5 || w == 17)
    requires Fixes(k, v) && k % w != 0 && Root(q) == r
    ensures MulUnrolled(v, r) == v
  {
    hide Mul, MulUnrolled, Pow;
    var s, m := Inverse(w, k);
    FixesQuotient(period, q, w, k, s, m, v);
    MulUnrolledIsMul(v, r);
  }

  /** 2^k - 1 divides no non-zero byte for 0 < k < 255, so 2 has multiplicative order 255. */
  lemma OnlyZeroIsFixed(k: nat, v: Byte)
    requires 0 < k < 255 && Fixes(k, v)
    ensures v == Zero
  {
    hide Mul, MulUnrolled, Pow, Fixes;
    hide XTime, Xor, Select;
    RootValues(15, 51, 85, 255);
    if k % 3 != 0 {
      FixedByQuotient(255, 85, 3, k, R85, v); FixedBy85(v);
    } else if k % 5 != 0 {
      FixedByQuotient(255, 51, 5, k, R51, v); FixedBy51(v);
    } else {
      assert k % 17 != 0;
      FixedByQuotient(255, 15, 17, k, R15, v); FixedBy15(v);
    }
  }

  /** The difference of two distinct powers of 2 below 2^255 is not a zero divisor. */
  lemma DifferenceCancels(a: nat, b: nat, v: Byte)
    requires b < a < 255
    requires Mul(v, Xor(Root(a), Root(b))) == Zero
    ensures v == Zero
  {
    hide Mul, Xor, Pow;
    MulXorRight(v, Root(a), Root(b));
    XorIsZero(Mul(v, Root(a)), Mul(v, Root(b)));
    PowSum(Two, b, a - b);
    MulAssociates(v, Root(b), Root(a - b));
    assert Fixes(a - b, Mul(v, Root(b)));
    OnlyZeroIsFixed(a - b, Mul(v, Root(b)));
    TimesRootIsZero(b, v);
  }

  lemma {:induction false} TimesRootIsZero(b: nat, v: Byte)
    requires Mul(v, Root(b)) == Zero
    ensures v == Zero
  {
    hide Mul;
    if b == 0 {
      MulTwo(v);
    } else {
      RootStep(b - 1);
      MulAssociates(v, Root(b - 1), Two);
      MulTwo(Mul(v, Root(b - 1)));
      TimesRootIsZero(b - 1, v);
    }
  }

  // ----- the weight of a codeword

  /** The exponents of the non-zero terms of a word. */
  function Support(word: Poly): (e: seq<nat>)
    ensures forall i :: 0 <= i < |e| ==> e[i] < |word|
  {
    if word == [] then [] else
      (if word[0] != Zero then [|word| - 1] else []) + Support(word[1..])
  }

  function Weight(word: Poly): nat { |Support(word)| }

  /** The polynomial with the roots 2^e for the given exponents e. */
  function Vanishing(e: seq<nat>): (p: Poly)
    ensures |p| == |e| + 1
  {
    if e == [] then [One] else MulLinear(Vanishing(e[1..]), Root(e[0]))
  }

  lemma {:induction false} VanishingAt(e: seq<nat>, n: nat)
    requires n in e
    ensures Eval(Vanishing(e), Root(n)) == Zero
  {
    hide Mul, Xor, Pow, Eval, MulLinear;
    var a, p := Root(n), Vanishing(e[1..]);
    EvalMulLinear(p, Root(e[0]), a);
    if e[0] == n {
      XorZero(a); MulZero(Eval(p, a));
    } else {
      VanishingAt(e[1..], n);
      MulZeroLeft(Xor(a, Root(e[0])));
    }
  }

  lemma {:induction false} VanishingElsewhere(e: seq<nat>, n: nat, v: Byte)
    requires n < 255 && forall i :: 0 <= i < |e| ==> e[i] < n
    ensures Mul(v, Eval(Vanishing(e), Root(n))) == Zero ==> v == Zero
  {
    hide Mul, Xor, Pow, Eval, MulLinear;
    var a := Root(n);
    if e == [] {
      EvalConstant(One, a); MulTwo(v);
    } else if Mul(v, Eval(Vanishing(e), a)) == Zero {
      var p := Vanishing(e[1..]);
      EvalMulLinear(p, Root(e[0]), a);
      MulAssociates(v, Eval(p, a), Xor(a, Root(e[0])));
      DifferenceCancels(n, e[0], Mul(v, Eval(p, a)));
      VanishingElsewhere(e[1..], n, v);
    }
  }

  /** The sum of word[i] * p(2^k) over the terms word[i] * x^k of the word. */
  function Pairing(word: Poly, p: Poly): Byte {
    if word == [] then Zero else
      Xor(Mul(word[0], Eval(p, Root(|word| - 1))), Pairing(word[1..], p))
  }

  function Monomial(j: nat): (p: Poly) { [One] + Zeros(j) }

  /** Pairing with x^j is evaluation at 2^j. */
  lemma {:induction false} PairingMonomial(word: Poly, j: nat)
    ensures Pairing(word, Monomial(j)) == Eval(word, Root(j))
  {
    hide Mul, Xor, Pow, Eval, Polynomial.Zeros;
    if word == [] {
      EvalEmpty(Root(j));
    } else {
      var n := |word| - 1;
      PairingMonomial(word[1..], j);
      assert word == [word[0]] + word[1..];
      EvalCons(word[0], word[1..], Root(j));
      EvalCons(One, Zeros(j), Root(n)); EvalZeros(j, Root(n));
      MulOneLeft(Pow(Root(n), j)); XorZero(Pow(Root(n), j));
      PowPow(Two, n, j); PowPow(Two, j, n);
      assert n * j == j * n;
    }
  }

  lemma {:induction false} PairingSplit(word: Poly, c: Byte, q: Poly)
    ensures Pairing(word, [c] + q) == Xor(Mul(Pairing(word, Monomial(|q|)), c), Pairing(word, q))
  {
    hide Mul, Xor, Pow, Eval, Polynomial.Zeros;
    if word == [] {
      MulZeroLeft(c); XorZero(Zero);
    } else {
      var w, a, n := word[0], Root(|word| - 1), |q|;
      PairingSplit(word[1..], c, q);
      EvalCons(c, q, a);
      EvalCons(One, Zeros(n), a); EvalZeros(n, a);
      MulOneLeft(Pow(a, n)); XorZero(Pow(a, n));
      MulXorRight(w, Mul(c, Pow(a, n)), Eval(q, a));
      MulCommutes(c, Pow(a, n)); MulAssociates(w, Pow(a, n), c);
      MulXorLeft(Mul(w, Pow(a, n)), Pairing(word[1..], Monomial(n)), c);
      XorSwap(Mul(Mul(w, Pow(a, n)), c), Mul(w, Eval(q, a)),
              Mul(Pairing(word[1..], Monomial(n)), c), Pairing(word[1..], q));
    }
  }

  /** A codeword of degree d pairs to zero with every polynomial of fewer than d + 1 coefficients. */
  lemma {:induction false} PairingOfCodeword(word: Poly, d: nat, p: Poly)
    requires Codeword(word, d) && |p| <= d
    ensures Pairing(word, p) == Zero
  {
    hide Mul, Xor, Pow, Eval, Monomial;
    if p == [] {
      PairingEmpty(word);
    } else {
      var c, q := p[0], p[1..];
      assert p == [c] + q;
      PairingOfCodeword(word, d, q);
      PairingSplit(word, c, q);
      PairingMonomial(word, |q|);
      MulZeroLeft(c); XorZero(Zero);
    }
  }

  lemma {:induction false} PairingEmpty(word: Poly)
    ensures Pairing(word, []) == Zero
  {
    hide Mul, Xor, Pow;
    if word != [] {
      PairingEmpty(word[1..]);
      MulZero(word[0]); XorZero(Zero);
    }
  }

  lemma {:induction false} PairingVanishes(word: Poly, e: seq<nat>)
    requires forall i :: 0 <= i < |Support(word)| ==> Support(word)[i] in e
    ensures Pairing(word, Vanishing(e)) == Zero
  {
    hide Mul, Xor, Pow, Eval, Vanishing;
    if word != [] {
      var rest, n, here := Support(word[1..]), |word| - 1, if word[0] != Zero then 1 else 0;
      forall i | 0 <= i < |rest|
        ensures rest[i] in e
      {
        assert rest[i] == Support(word)[i + here];
      }
      PairingVanishes(word[1..], e);
      if word[0] == Zero {
        MulZeroLeft(Eval(Vanishing(e), Root(n)));
      } else {
        assert Support(word)[0] == n;
        VanishingAt(e, n);
        MulZero(word[0]);
      }
      XorZero(Zero);
    }
  }

  /** A non-zero codeword of degree d and at most 255 bytes has more than d non-zero bytes. */
  lemma {:induction false} MinimumWeight(word: Poly, d: nat)
    requires Codeword(word, d) && |word| <= 255
    requires exists i :: 0 <= i < |word| && word[i] != Zero
    ensures Weight(word) > d
  {
    hide Mul, Xor, Pow, Eval, Vanishing;
    var n, rest := |word| - 1, word[1..];
    if word[0] == Zero {
      forall j | 0 <= j < d
        ensures Eval(rest, Root(j)) == Zero
      {
        assert word == [Zero] + rest;
        EvalCons(Zero, rest, Root(j));
        MulZeroLeft(Pow(Root(j), n)); XorZero(Eval(rest, Root(j)));
      }
      var i :| 0 <= i < |word| && word[i] != Zero;
      assert rest[i - 1] != Zero;
      MinimumWeight(rest, d);
    } else if Weight(word) <= d {
      var e := Support(rest);
      var p := Vanishing(e);
      PairingOfCodeword(word, d, p);
      PairingVanishes(rest, e);
      XorZero(Mul(word[0], Eval(p, Root(n))));
      VanishingElsewhere(e, n, word[0]);
      assert false;
    }
  }

  // ----- distance

  /** The number of positions at which two words of the same length differ. */
  function Distance(u: Poly, v: Poly): nat
    requires |u| == |v|
  {
    if u == [] then 0 else (if u[0] != v[0] then 1 else 0) + Distance(u[1..], v[1..])
  }

  lemma {:induction false} DistanceIsWeight(u: Poly, v: Poly)
    requires |u| == |v|
    ensures Distance(u, v) == Weight(Add(u, v))
  {
    hide Xor;
    if u != [] {
      DistanceIsWeight(u[1..], v[1..]);
      assert Add(u, v)[1..] == Add(u[1..], v[1..]);
      XorIsZero(u[0], v[0]);
    }
  }

  lemma {:induction false} Triangle(u: Poly, v: Poly, w: Poly)
    requires |u| == |v| == |w|
    ensures Distance(u, w) <= Distance(u, v) + Distance(v, w)
    ensures Distance(u, v) == Distance(v, u)
  {
    if u != [] { Triangle(u[1..], v[1..], w[1..]); }
  }

  /** Two different codewords of degree d and at most 255 bytes differ in more than d bytes. */
  lemma MinimumDistance(u: Poly, v: Poly, d: nat)
    requires |u| == |v| <= 255 && u != v
    requires Codeword(u, d) && Codeword(v, d)
    ensures Distance(u, v) > d
  {
    hide Xor, Mul, Eval, Pow, Support, Distance;
    var diff := Add(u, v);
    forall j | 0 <= j < d
      ensures Eval(diff, Root(j)) == Zero
    {
      EvalAdd(u, v, Root(j));
      XorZero(Zero);
    }
    var i :| 0 <= i < |u| && u[i] != v[i];
    XorIsZero(u[i], v[i]);
    assert diff[i] != Zero;
    MinimumWeight(diff, d);
    DistanceIsWeight(u, v);
  }

  /** Up to d / 2 wrong bytes leave only one codeword within reach: every block can be repaired. */
  lemma ErrorsAreCorrectable(received: Poly, u: Poly, v: Poly, d: nat)
    requires |received| == |u| == |v| <= 255
    ensures Codeword(u, d) && Codeword(v, d) && 2 * Distance(received, u) <= d && 2 * Distance(received, v) <= d ==>
      u == v
  {
    hide *;
    if Codeword(u, d) && Codeword(v, d) && Distance(received, u) + Distance(received, v) <= d && u != v {
      MinimumDistance(u, v, d);
      Triangle(u, received, v); Triangle(received, u, v);
      assert false;
    }
  }

  /** The sum of two tails with which the same data vanishes at r vanishes there by itself. */
  lemma TailsDiffer(data: Poly, a: Poly, b: Poly, r: Byte)
    requires |a| == |b|
    ensures Eval(data + a, r) == Zero == Eval(data + b, r) ==> Eval(Add(a, b), r) == Zero
  {
    hide Xor, Mul, Eval, Pow, Add;
    EvalConcat(data, a, r); EvalConcat(data, b, r);
    EvalAdd(a, b, r);
    var head := Mul(Eval(data, r), Pow(r, |a|));
    XorIsZero(head, Eval(a, r)); XorIsZero(head, Eval(b, r)); XorIsZero(Eval(a, r), Eval(b, r));
  }

  lemma SumAt(a: Poly, b: Poly, i: nat)
    requires |a| == |b| && i < |a|
    ensures Add(a, b)[i] == Zero <==> a[i] == b[i]
  {
    hide Xor;
    XorIsZero(a[i], b[i]);
  }

  /** The computed remainder is the only tail of d bytes that completes the data to a codeword. */
  lemma EccIsUnique(data: Poly, ecc: Poly, d: nat)
    requires 1 <= d == |ecc| <= 255
    ensures Codeword(data + ecc, d) <==> ecc == Remainder(data, Generator(d)[1..])
  {
    hide Xor, Mul, Eval, Root, Generator, Remainder, Weight, Add;
    var rem := Remainder(data, Generator(d)[1..]);
    EncodedIsCodeword(data, d);
    if Codeword(data + ecc, d) && ecc != rem {
      var sum := Add(ecc, rem);
      forall j | 0 <= j < d ensures Eval(sum, Root(j)) == Zero { TailsDiffer(data, ecc, rem, Root(j)); }
      var i :| 0 <= i < d && ecc[i] != rem[i];
      assert sum[i] != Zero by { SumAt(ecc, rem, i); }
      MinimumWeight(sum, d);
      WeightBound(sum);
      assert false;
    }
  }

  lemma {:induction false} WeightBound(word: Poly)
    ensures Weight(word) <= |word|
  {
    if word != [] { WeightBound(word[1..]); }
  }
}
