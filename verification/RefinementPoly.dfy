/**
 The refinement polynomials of `remez_utils.py` in exact fractions. The normaliser is an alternating binomial sum; it
 is positive because the sums of one order are differences of sums of the order below in a fixed ratio. The filled
 coefficient list is odd, has the value 1 at 1, and its derivative is (1 - x^2)^order divided by the normaliser; the
 returned Chebyshev coefficients are those of the same polynomial.
 */
module RefinementPoly {
  import PolyEval

  /** `math.comb`, by Pascal's rule. */
  function Comb(n: nat, k: nat): nat {
    if k == 0 then 1 else if n == 0 then 0 else Comb(n - 1, k - 1) + Comb(n - 1, k)
  }

  lemma {:induction false} CombBeyond(n: nat, k: nat)
    requires k > n
    ensures Comb(n, k) == 0
    decreases n
  {
    if n > 0 {
      CombBeyond(n - 1, k - 1);
      CombBeyond(n - 1, k);
    }
  }

  /** `(-1) ** j * comb(order, j)`. */
  function SignedComb(order: nat, j: nat): int {
    if j % 2 == 0 then Comb(order, j) else 0 - Comb(order, j)
  }

  /** `Fr(num, den)`. */
  function Fraction(num: int, den: nat): real
    requires den > 0
  {
    num as real / den as real
  }

  /** The first n terms of the alternating sum of comb(order, j) / (2 j + a). */
  function AltSum(order: nat, a: nat, n: nat): real
    requires a > 0
  {
    if n == 0 then 0.0 else AltSum(order, a, n - 1) + Fraction(SignedComb(order, n - 1), 2 * (n - 1) + a)
  }

  /** `norm`. */
  function Norm(order: nat): real { AltSum(order, 1, order + 1) }

  // ----- the normaliser is positive -----

  lemma SplitFraction(x: int, y: int, den: nat)
    requires den > 0
    ensures Fraction(x - y, den) == Fraction(x, den) - Fraction(y, den)
  {}

  lemma PascalTerm(order: nat, k: nat, den: nat)
    requires order > 0 && k > 0 && den > 0
    ensures Fraction(SignedComb(order, k), den) ==
      Fraction(SignedComb(order - 1, k), den) - Fraction(SignedComb(order - 1, k - 1), den)
  {
    assert SignedComb(order, k) == SignedComb(order - 1, k) - SignedComb(order - 1, k - 1);
    SplitFraction(SignedComb(order - 1, k), SignedComb(order - 1, k - 1), den);
  }

  /** Pascal's rule on the sums. */
  lemma {:induction false} AltSumPascal(order: nat, a: nat, n: nat)
    requires a > 0 && order > 0 && n > 0
    ensures AltSum(order, a, n) == AltSum(order - 1, a, n) - AltSum(order - 1, a + 2, n - 1)
  {
    if n > 1 {
      AltSumPascal(order, a, n - 1);
      PascalTerm(order, n - 1, 2 * (n - 1) + a);
    }
  }

  /** The whole sum, as a difference of two sums of one order less. */
  function Closed(order: nat, a: real): real
    requires a > 0.0
  {
    if order == 0 then 1.0 / a else Closed(order - 1, a) - Closed(order - 1, a + 2.0)
  }

  lemma {:induction false} AltSumIsClosed(order: nat, a: nat)
    requires a > 0
    ensures AltSum(order, a, order + 1) == Closed(order, a as real)
  {
    if order == 0 {
      assert AltSum(0, a, 1) == AltSum(0, a, 0) + Fraction(1, a);
    } else {
      AltSumPascal(order, a, order + 1);
      LastTermVanishes(order - 1, a);
      AltSumIsClosed(order - 1, a);
      AltSumIsClosed(order - 1, a + 2);
      assert (a + 2) as real == a as real + 2.0;
    }
  }

  lemma LastTermVanishes(order: nat, a: nat)
    requires a > 0
    ensures AltSum(order, a, order + 2) == AltSum(order, a, order + 1)
  {
    CombBeyond(order, order + 1);
    assert SignedComb(order, order + 1) == 0;
  }

  /** Neighbouring sums are in the ratio a : a + 2 order + 2. */
  lemma {:induction false} ClosedRatio(order: nat, a: real, x: real, y: real, s: real)
    requires a > 0.0 && x == Closed(order, a) && y == Closed(order, a + 2.0) && s == a + 2.0 * order as real + 2.0
    ensures y * s == x * a
    decreases order
  {
    if order > 0 {
      var p, q, r := Closed(order - 1, a), Closed(order - 1, a + 2.0), Closed(order - 1, a + 2.0 + 2.0);
      ClosedRatio(order - 1, a, p, q, s - 2.0);
      ClosedRatio(order - 1, a + 2.0, q, r, s);
      RatioStep(p, q, r, a, order as real, s - 2.0, s);
    }
  }

  lemma RatioStep(p: real, q: real, r: real, a: real, m: real, s: real, s2: real)
    requires s == a + 2.0 * m && s2 == s + 2.0
    requires q * s == p * a && r * s2 == q * (a + 2.0)
    ensures (q - r) * s2 == (p - q) * a
  {
    assert q * s2 == q * s + 2.0 * q;
    assert q * (a + 2.0) == q * a + 2.0 * q;
  }

  lemma {:induction false} ClosedPositive(order: nat, a: real)
    requires a > 0.0
    ensures Closed(order, a) > 0.0
    decreases order
  {
    if order > 0 {
      var p, q, m := Closed(order - 1, a), Closed(order - 1, a + 2.0), order as real;
      ClosedPositive(order - 1, a);
      ClosedRatio(order - 1, a, p, q, a + 2.0 * m);
      PositiveStep(p, q, a, m, a + 2.0 * m);
    }
  }

  lemma PositiveStep(p: real, q: real, a: real, m: real, s: real)
    requires p > 0.0 && a > 0.0 && m > 0.0 && s == a + 2.0 * m && q * s == p * a
    ensures p - q > 0.0
  {
    assert (p - q) * s == p * (2.0 * m) > 0.0;
    assert p - q == (p - q) * s / s;
  }

  /** For every order the normaliser is strictly positive. */
  lemma NormPositive(order: nat)
    ensures Norm(order) > 0.0
  {
    AltSumIsClosed(order, 1);
    ClosedPositive(order, 1.0);
  }

  // ----- polynomials -----

  /** The value of a coefficient list, lowest degree first. */
  function Eval(c: seq<real>, x: real): real {
    if c == [] then 0.0 else c[0] + x * Eval(c[1..], x)
  }

  function Derivative(c: seq<real>): (d: seq<real>)
    requires c != []
    ensures |d| == |c| - 1
  {
    seq(|c| - 1, i requires 0 <= i < |c| - 1 => (i + 1) as real * c[i + 1])
  }

  function At(p: seq<int>, i: int): int { if 0 <= i < |p| then p[i] else 0 }

  /** Multiplication by 1 - x^2. */
  function TimesOneMinusSquare(p: seq<int>): (r: seq<int>)
    ensures |r| == |p| + 2
  {
    seq(|p| + 2, i => At(p, i) - At(p, i - 2))
  }

  /** The coefficients of (1 - x^2)^order, by repeated multiplication. */
  function FlatPower(order: nat): (r: seq<int>)
    ensures |r| == 2 * order + 1
  {
    if order == 0 then [1] else TimesOneMinusSquare(FlatPower(order - 1))
  }

  /** The coefficient of x^i in (1 - x^2)^order. */
  function FlatCoefficient(order: nat, i: int): int {
    if 0 <= i && i % 2 == 0 then SignedComb(order, i / 2) else 0
  }

  lemma FlatStep(order: nat, i: nat)
    requires order > 0
    ensures FlatCoefficient(order, i) == FlatCoefficient(order - 1, i) - FlatCoefficient(order - 1, i - 2)
  {
    if i % 2 == 0 && i > 0 {
      assert (i - 2) / 2 == i / 2 - 1 && (i - 2) % 2 == 0;
      SignedPascal(order, i / 2);
    }
  }

  lemma SignedPascal(order: nat, j: nat)
    requires order > 0 && j > 0
    ensures SignedComb(order, j) == SignedComb(order - 1, j) - SignedComb(order - 1, j - 1)
  {}

  lemma FlatEnds(order: nat, i: int)
    requires i > 2 * order || (order == 0 && i == 0)
    ensures FlatCoefficient(order, i) == if i == 0 then 1 else 0
  {
    if i > 2 * order && i % 2 == 0 { CombBeyond(order, i / 2); }
    assert SignedComb(0, 0) == 1;
  }

  lemma FlatPowerStep(order: nat, i: nat)
    requires 0 < order && i <= 2 * order
    ensures At(FlatPower(order), i) == At(FlatPower(order - 1), i) - At(FlatPower(order - 1), i - 2)
  {
    hide At;
    assert FlatPower(order) == TimesOneMinusSquare(FlatPower(order - 1));
    InRange(FlatPower(order), i);
  }

  lemma FlatBelow(order: nat, i: int)
    requires i < 0
    ensures At(FlatPower(order), i) == 0 == FlatCoefficient(order, i)
  {}

  lemma FlatPowerEnds(order: nat, i: int)
    requires i > 2 * order || (order == 0 && i == 0)
    ensures At(FlatPower(order), i) == if i == 0 then 1 else 0
  {}

  lemma InRange(p: seq<int>, i: nat)
    requires i < |p|
    ensures At(p, i) == p[i]
  {}

  lemma {:induction false} FlatAt(order: nat, i: int)
    ensures At(FlatPower(order), i) == FlatCoefficient(order, i)
    decreases order
  {
    hide *;
    if i < 0 {
      FlatBelow(order, i);
    } else if i > 2 * order || (order == 0 && i == 0) {
      FlatEnds(order, i);
      FlatPowerEnds(order, i);
    } else {
      FlatPowerStep(order, i);
      FlatAt(order - 1, i);
      FlatAt(order - 1, i - 2);
      FlatStep(order, i);
    }
  }

  lemma FlatPowerCoefficient(order: nat, i: nat)
    requires i <= 2 * order
    ensures FlatPower(order)[i] == if i % 2 == 0 then SignedComb(order, i / 2) else 0
  {
    FlatAt(order, i);
  }

  /** A polynomial whose even coefficients vanish is odd, one whose odd coefficients vanish is even. */
  lemma {:induction false} EvalParity(c: seq<real>, x: real, odd: bool)
    requires forall i :: 0 <= i < |c| && i % 2 == (if odd then 0 else 1) ==> c[i] == 0.0
    ensures Eval(c, -x) == if odd then -Eval(c, x) else Eval(c, x)
  {
    if c != [] {
      EvalParity(c[1..], x, !odd);
      var e, f := Eval(c[1..], x), Eval(c[1..], -x);
      assert (-x) * f == if odd then -(x * e) else x * e;
    }
  }

  lemma {:induction false} EvalAtOne(c: seq<real>, n: nat)
    requires n <= |c|
    ensures Eval(c, 1.0) == SumFirst(c, n) + Eval(c[n..], 1.0)
  {
    if n > 0 {
      EvalAtOne(c, n - 1);
      assert c[n - 1..][1..] == c[n..];
    } else {
      assert c[0..] == c;
    }
  }

  function SumFirst(c: seq<real>, n: nat): real
    requires n <= |c|
  {
    if n == 0 then 0.0 else SumFirst(c, n - 1) + c[n - 1]
  }

  // ----- the filled list -----

  /** `refinement_poly` before the conversion to floats: the normaliser and the monomial coefficients. */
  predicate Filled(order: nat, norm: real, c: seq<real>, n: nat)
    requires norm > 0.0
  {
    |c| == 2 * order + 2 && n <= order + 1 &&
    (forall i :: 0 <= i < |c| && (i % 2 == 0 || i >= 2 * n) ==> c[i] == 0.0) &&
    forall j :: 0 <= j < n ==> c[2 * j + 1] == Fraction(SignedComb(order, j), 2 * j + 1) / norm
  }

  lemma NextTerm(order: nat, norm: real, c: seq<real>, n: nat, t: real)
    requires norm > 0.0 && Filled(order, norm, c, order + 1) && 0 < n <= order + 1
    requires t == Fraction(SignedComb(order, n - 1), 2 * (n - 1) + 1)
    ensures SumFirst(c, 2 * n) == SumFirst(c, 2 * (n - 1)) + t / norm
    ensures AltSum(order, 1, n) == AltSum(order, 1, n - 1) + t
  {
    hide SignedComb, Fraction;
    assert SumFirst(c, 2 * n) == SumFirst(c, 2 * n - 1) + c[2 * (n - 1) + 1];
    assert c[2 * (n - 1)] == 0.0;
  }

  lemma NoTermsYet(order: nat, c: seq<real>)
    ensures SumFirst(c, 0) == 0.0 == AltSum(order, 1, 0)
  {}

  lemma FilledLength(order: nat, norm: real, c: seq<real>, n: nat)
    requires norm > 0.0 && Filled(order, norm, c, n)
    ensures |c| == 2 * order + 2
  {}

  lemma {:induction false} FilledSum(order: nat, norm: real, c: seq<real>, n: nat)
    requires norm > 0.0 && Filled(order, norm, c, order + 1) && n <= order + 1
    ensures SumFirst(c, 2 * n) == AltSum(order, 1, n) / norm
  {
    hide *;
    if n == 0 {
      NoTermsYet(order, c);
    } else {
      FilledLength(order, norm, c, order + 1);
      FilledSum(order, norm, c, n - 1);
      var t := Fraction(SignedComb(order, n - 1), 2 * (n - 1) + 1);
      NextTerm(order, norm, c, n, t);
      AddQuotients(AltSum(order, 1, n - 1), t, norm);
    }
  }

  lemma AddQuotients(a: real, b: real, d: real)
    requires d > 0.0
    ensures a / d + b / d == (a + b) / d
  {}

  lemma Quotient(n: int, k: nat, norm: real, c: real)
    requires k > 0 && norm > 0.0 && c == Fraction(n, k) / norm
    ensures k as real * c == n as real / norm
  {
    var f := Fraction(n, k);
    assert f * k as real == n as real;
    assert c * norm == f;
    assert (k as real * c) * norm == n as real;
  }

  /** f is odd. */
  lemma FilledIsOdd(order: nat, norm: real, c: seq<real>, x: real)
    requires norm > 0.0 && Filled(order, norm, c, order + 1)
    ensures Eval(c, -x) == -Eval(c, x)
  {
    EvalParity(c, x, true);
  }

  /** f(1) = 1. */
  lemma FilledAtOne(order: nat, norm: real, c: seq<real>)
    requires norm == Norm(order) && norm > 0.0 && Filled(order, norm, c, order + 1)
    ensures Eval(c, 1.0) == 1.0
  {
    FilledSum(order, norm, c, order + 1);
    WholeSum(c, 2 * order + 2, norm);
  }

  lemma WholeSum(c: seq<real>, n: nat, norm: real)
    requires n == |c| && norm > 0.0 && SumFirst(c, n) == norm / norm
    ensures Eval(c, 1.0) == 1.0
  {
    EvalAtOne(c, n);
    assert c[n..] == [];
  }

  /** The derivative of f is (1 - x^2)^order divided by the normaliser. */
  lemma FilledDerivative(order: nat, norm: real, c: seq<real>)
    requires norm > 0.0 && Filled(order, norm, c, order + 1)
    ensures forall i :: 0 <= i < |Derivative(c)| ==> Derivative(c)[i] == FlatPower(order)[i] as real / norm
  {
    forall i | 0 <= i < |Derivative(c)|
      ensures Derivative(c)[i] == FlatPower(order)[i] as real / norm
    {
      DerivativeIndex(order, norm, c, i, Derivative(c)[i], FlatPower(order)[i]);
    }
  }

  lemma DerivativeIndex(order: nat, norm: real, c: seq<real>, i: nat, d: real, p: int)
    requires norm > 0.0 && Filled(order, norm, c, order + 1) && i <= 2 * order
    requires d == Derivative(c)[i] && p == FlatPower(order)[i]
    ensures d == p as real / norm
  {
    FlatPowerCoefficient(order, i);
    DerivativeAt(order, norm, c, i, p);
    DerivativeIs(c, i, d);
  }

  lemma DerivativeIs(c: seq<real>, i: nat, d: real)
    requires i + 1 < |c| && d == Derivative(c)[i]
    ensures d == (i + 1) as real * c[i + 1]
  {}

  lemma DerivativeAt(order: nat, norm: real, c: seq<real>, i: nat, p: int)
    requires norm > 0.0 && Filled(order, norm, c, order + 1) && i <= 2 * order
    requires p == if i % 2 == 0 then SignedComb(order, i / 2) else 0
    ensures (i + 1) as real * c[i + 1] == p as real / norm
  {
    if i % 2 == 0 {
      FilledAt(order, norm, c, i / 2, i, c[i + 1]);
    } else {
      ZeroQuotient(i + 1, norm, c[i + 1]);
    }
  }

  lemma FilledAt(order: nat, norm: real, c: seq<real>, j: nat, i: nat, v: real)
    requires norm > 0.0 && Filled(order, norm, c, order + 1) && j <= order && i == 2 * j && v == c[i + 1]
    ensures (i + 1) as real * v == SignedComb(order, j) as real / norm
  {
    Quotient(SignedComb(order, j), i + 1, norm, v);
  }

  lemma ZeroQuotient(k: nat, norm: real, v: real)
    requires norm > 0.0 && v == 0.0
    ensures k as real * v == 0 as real / norm
  {}

  // ----- the Chebyshev basis -----

  function Plus(a: seq<real>, b: seq<real>): seq<real> {
    if a == [] then b else if b == [] then a else [a[0] + b[0]] + Plus(a[1..], b[1..])
  }

  function Half(c: seq<real>): seq<real> {
    if c == [] then [] else [c[0] / 2.0] + Half(c[1..])
  }

  /** Multiplication by x in the Chebyshev basis: x * T_0 = T_1, and x * T_k = (T_(k-1) + T_(k+1)) / 2. */
  function TimesX(c: seq<real>): seq<real> {
    if c == [] then [] else Plus([0.0, c[0]] + Half(c[1..]), Half(c[1..]))
  }

  /** `poly2cheb`: Horner's rule in the Chebyshev basis. */
  function ToChebyshev(c: seq<real>): seq<real> {
    if c == [] then [] else Plus(TimesX(ToChebyshev(c[1..])), [c[0]])
  }

  /** The sum of c[i] * w(k + i). */
  function Weighted(c: seq<real>, w: nat -> real, k: nat): real {
    if c == [] then 0.0 else c[0] * w(k) + Weighted(c[1..], w, k + 1)
  }

  lemma WeightedCons(v: real, c: seq<real>, w: nat -> real, k: nat)
    ensures Weighted([v] + c, w, k) == v * w(k) + Weighted(c, w, k + 1)
  {
    assert ([v] + c)[1..] == c;
  }

  lemma {:induction false} WeightedPlus(a: seq<real>, b: seq<real>, w: nat -> real, k: nat)
    ensures Weighted(Plus(a, b), w, k) == Weighted(a, w, k) + Weighted(b, w, k)
    decreases |a|
  {
    if a != [] && b != [] {
      WeightedPlus(a[1..], b[1..], w, k + 1);
      WeightedCons(a[0] + b[0], Plus(a[1..], b[1..]), w, k);
      Distribute(a[0], b[0], w(k));
    }
  }

  lemma Distribute(u: real, v: real, t: real)
    ensures (u + v) * t == u * t + v * t
  {}

  lemma {:induction false} WeightedHalf(c: seq<real>, w: nat -> real, k: nat)
    ensures Weighted(Half(c), w, k) == Weighted(c, w, k) / 2.0
    decreases |c|
  {
    if c != [] {
      WeightedHalf(c[1..], w, k + 1);
      WeightedCons(c[0] / 2.0, Half(c[1..]), w, k);
      HalveProduct(c[0], w(k));
    }
  }

  lemma HalveProduct(a: real, t: real)
    ensures a / 2.0 * t == a * t / 2.0
  {}

  /** b is twice x times a. */
  predicate Twice(x: real, a: real, b: real) { 2.0 * (x * a) == b }

  /** The weights obey the recurrence of the Chebyshev polynomials at x. */
  ghost predicate Recurrent(w: nat -> real, x: real) { forall j: nat :: RecurrentAt(w, x, j) }

  predicate RecurrentAt(w: nat -> real, x: real, j: nat) { Twice(x, w(j + 1), w(j + 2) + w(j)) }

  /** The recurrence, read as the product of x and a sum that starts at a degree above 0. */
  lemma {:induction false} WeightedShift(c: seq<real>, w: nat -> real, k: nat, x: real)
    requires Recurrent(w, x)
    ensures Twice(x, Weighted(c, w, k + 1), Weighted(c, w, k + 2) + Weighted(c, w, k))
    decreases |c|
  {
    if c != [] {
      WeightedShift(c[1..], w, k + 1, x);
      assert RecurrentAt(w, x, k);
      TwiceSum(x, c[0], w(k + 1), w(k + 2), w(k), Weighted(c[1..], w, k + 2),
               Weighted(c[1..], w, k + 3) + Weighted(c[1..], w, k + 1));
    }
  }

  lemma TwiceSum(x: real, v: real, now: real, after: real, before: real, a: real, b: real)
    requires Twice(x, now, after + before) && Twice(x, a, b)
    ensures Twice(x, v * now + a, v * after + v * before + b)
  {
    assert v * (after + before) == v * after + v * before;
    Swap(x, v, now);
    assert x * (v * now + a) == x * (v * now) + x * a;
  }

  lemma Swap(x: real, v: real, now: real)
    ensures v * (2.0 * (x * now)) == 2.0 * (x * (v * now))
  {}

  lemma WeightedTimesX(c: seq<real>, w: nat -> real, x: real, sum: real, times: real)
    requires Recurrent(w, x) && w(0) == 1.0 && w(1) == x
    requires sum == Weighted(c, w, 0) && times == Weighted(TimesX(c), w, 0)
    ensures times == x * sum
  {
    hide *;
    if c != [] {
      WeightedHead(c, w, 0);
      var rest := Weighted(c[1..], w, 1);
      var twice := Weighted(c[1..], w, 2) + Weighted(c[1..], w, 0);
      WeightedShift(c[1..], w, 0, x);
      TimesXSum(c, w, twice, times);
      FirstTerms(x, c[0], w(0), w(1), c[0] * w(1), rest, sum, twice);
    } else {
      NoTerms(w);
    }
  }

  lemma WeightedHead(c: seq<real>, w: nat -> real, k: nat)
    requires c != []
    ensures Weighted(c, w, k) == c[0] * w(k) + Weighted(c[1..], w, k + 1)
  {}

  lemma NoTerms(w: nat -> real)
    ensures Weighted([], w, 0) == 0.0 && Weighted(TimesX([]), w, 0) == 0.0
  {}

  lemma TimesXSum(c: seq<real>, w: nat -> real, twice: real, sum: real)
    requires c != [] && twice == Weighted(c[1..], w, 2) + Weighted(c[1..], w, 0) && sum == Weighted(TimesX(c), w, 0)
    ensures sum == c[0] * w(1) + twice / 2.0
  {
    var rest := c[1..];
    var up := [c[0]] + Half(rest);
    assert [0.0, c[0]] + Half(rest) == [0.0] + up;
    WeightedPlus([0.0] + up, Half(rest), w, 0);
    WeightedHalf(rest, w, 2);
    WeightedHalf(rest, w, 0);
    WeightedCons(c[0], Half(rest), w, 1);
    WeightedCons(0.0, up, w, 0);
  }

  lemma FirstTerms(x: real, v: real, one: real, first: real, vx: real, rest: real, sum: real, twice: real)
    requires one == 1.0 && first == x && vx == v * first && sum == v * one + rest && Twice(x, rest, twice)
    ensures x * sum == vx + twice / 2.0
  {
    assert sum == v + rest;
  }

  lemma PlusConstant(c: seq<real>, v: real, w: nat -> real)
    requires w(0) == 1.0
    ensures Weighted(Plus(c, [v]), w, 0) == Weighted(c, w, 0) + v
  {
    WeightedPlus(c, [v], w, 0);
    WeightedCons(v, [], w, 0);
    assert [v] + [] == [v];
  }

  lemma {:induction false} WeightedConversion(c: seq<real>, w: nat -> real, x: real)
    requires Recurrent(w, x) && w(0) == 1.0 && w(1) == x
    ensures Weighted(ToChebyshev(c), w, 0) == Eval(c, x)
  {
    hide *;
    HornerStep(c, w, x);
    if c != [] {
      var rest := ToChebyshev(c[1..]);
      WeightedConversion(c[1..], w, x);
      WeightedTimesX(rest, w, x, Weighted(rest, w, 0), Weighted(TimesX(rest), w, 0));
      PlusConstant(TimesX(rest), c[0], w);
    }
  }

  /** One step of Horner's rule on both sides. */
  lemma HornerStep(c: seq<real>, w: nat -> real, x: real)
    ensures c == [] ==> Weighted(ToChebyshev(c), w, 0) == 0.0 == Eval(c, x)
    ensures c != [] ==> ToChebyshev(c) == Plus(TimesX(ToChebyshev(c[1..])), [c[0]])
    ensures c != [] ==> Eval(c, x) == c[0] + x * Eval(c[1..], x)
  {
    hide Plus, TimesX;
  }

  /** The values of the Chebyshev polynomials at x. */
  function ChebyshevValues(x: real): nat -> real { (j: nat) => PolyEval.T(j, x) }

  lemma ValuesAreRecurrent(x: real)
    ensures Recurrent(ChebyshevValues(x), x) && ChebyshevValues(x)(0) == 1.0 && ChebyshevValues(x)(1) == x
  {
    var w := ChebyshevValues(x);
    forall j: nat
      ensures RecurrentAt(w, x, j)
    {
      PolyEval.NextDegree(j + 1, x, w(j + 2));
      DoubleProduct(x, w(j + 1), w(j), w(j + 2));
    }
  }

  lemma DoubleProduct(x: real, now: real, before: real, after: real)
    requires after == 2.0 * x * now - before
    ensures Twice(x, now, after + before)
  {}

  lemma {:induction false} SumIsWeighted(c: seq<real>, k: nat, x: real)
    ensures PolyEval.SumFromDegree(c, k, x) == Weighted(c, ChebyshevValues(x), k)
    decreases |c|
  {
    if c != [] { SumIsWeighted(c[1..], k + 1, x); }
  }

  /** The conversion keeps the polynomial. */
  lemma ConversionKeepsValue(c: seq<real>, x: real)
    ensures PolyEval.ChebSum(ToChebyshev(c), x) == Eval(c, x)
  {
    ValuesAreRecurrent(x);
    WeightedConversion(c, ChebyshevValues(x), x);
    SumIsWeighted(ToChebyshev(c), 0, x);
  }

  /** `refinement_poly` in exact numbers: the normaliser, the monomial coefficients and the Chebyshev coefficients. */
  method Build(order: nat) returns (norm: real, monomial: seq<real>, cheb: seq<real>)
    ensures norm == Norm(order) > 0.0
    ensures Filled(order, norm, monomial, order + 1)
    ensures forall x :: Eval(monomial, -x) == -Eval(monomial, x)
    ensures Eval(monomial, 1.0) == 1.0
    ensures forall i :: 0 <= i < |Derivative(monomial)| ==>
      Derivative(monomial)[i] == FlatPower(order)[i] as real / norm
    ensures forall x :: PolyEval.ChebSum(cheb, x) == Eval(monomial, x)
  {
    hide Eval, FlatPower, Derivative, ToChebyshev, SignedComb, Fraction, Comb;
    monomial := seq(2 * order + 2, i => 0.0);
    norm := 0.0;
    for j := 0 to order + 1
      invariant norm == AltSum(order, 1, j)
    {
      norm := norm + Fraction(SignedComb(order, j), 2 * j + 1);
    }
    NormPositive(order);
    for j := 0 to order + 1
      invariant Filled(order, norm, monomial, j)
    {
      monomial := monomial[2 * j + 1 := Fraction(SignedComb(order, j), 2 * j + 1) / norm];
    }
    forall x
      ensures Eval(monomial, -x) == -Eval(monomial, x)
    {
      FilledIsOdd(order, norm, monomial, x);
    }
    FilledAtOne(order, norm, monomial);
    FilledDerivative(order, norm, monomial);
    cheb := ToChebyshev(monomial);
    forall x
      ensures PolyEval.ChebSum(cheb, x) == Eval(monomial, x)
    {
      ConversionKeepsValue(monomial, x);
    }
  }
}
