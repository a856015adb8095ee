/**
 What refinements gain: the refinement polynomial of order o is flat at 1 to order exactly o + 1, so that a combination
 of them is flat to the product of these orders. That product is the factor by which the schedule search multiplies the
 measured bits.
 */
module RefinementGain {
  import opened Wrappers
  import Bits
  import opened Reals
  import opened RefinementPoly
  import opened PolynomialZeros
  import PolyEval
  import opened SignSearch

  /** The monomial coefficients that `refinement_poly` fills. */
  function RefineCoefs(order: nat): (c: seq<real>)
    ensures Norm(order) > 0.0 && Filled(order, Norm(order), c, order + 1)
  {
    NormPositive(order);
    var c := seq(2 * order + 2, i requires 0 <= i < 2 * order + 2 =>
      if i % 2 == 1 then Fraction(SignedComb(order, i / 2), i) / Norm(order) else 0.0);
    RefineFills(order, Norm(order), c);
    c
  }

  lemma RefineFills(order: nat, norm: real, c: seq<real>)
    requires norm > 0.0 && |c| == 2 * order + 2
    requires forall i :: 0 <= i < |c| ==>
      c[i] == if i % 2 == 1 then Fraction(SignedComb(order, i / 2), i) / norm else 0.0
    ensures Filled(order, norm, c, order + 1)
  {
    hide SignedComb, Fraction;
    forall j | 0 <= j < order + 1
      ensures c[2 * j + 1] == Fraction(SignedComb(order, j), 2 * j + 1) / norm
    {
      assert (2 * j + 1) / 2 == j && (2 * j + 1) % 2 == 1;
    }
  }

  lemma FilledIsUnique(order: nat, norm: real, c: seq<real>, d: seq<real>)
    requires norm > 0.0 && Filled(order, norm, c, order + 1) && Filled(order, norm, d, order + 1)
    ensures c == d
  {
    forall i | 0 <= i < |c|
      ensures c[i] == d[i]
    {
      if i % 2 == 1 {
        var j := i / 2;
        FilledCoefficient(order, norm, c, j, i);
        FilledCoefficient(order, norm, d, j, i);
      }
    }
  }

  /** What `RefinementPoly.Build` fills are these coefficients. */
  lemma BuiltCoefs(order: nat, monomial: seq<real>)
    requires Norm(order) > 0.0 && Filled(order, Norm(order), monomial, order + 1)
    ensures monomial == RefineCoefs(order)
  {
    hide *;
    FilledIsUnique(order, Norm(order), monomial, RefineCoefs(order));
  }

  lemma FilledCoefficient(order: nat, norm: real, c: seq<real>, j: nat, i: nat)
    requires norm > 0.0 && Filled(order, norm, c, order + 1) && j <= order && i == 2 * j + 1
    ensures c[i] == Fraction(SignedComb(order, j), i) / norm
  {
    hide SignedComb, Fraction;
    assert SignedComb(order, j) == SignedComb(order, j);
  }

  /** A refinement is charged the least supported depth that its coefficients fit. */
  lemma RefinementFits(order: nat, size: nat, d: nat)
    requires size == |RefineCoefs(order)| && BucketDepth(2 * order + 1) == Some(d)
    ensures Supported(d) && size <= Bits.Pow2(d) && (d > 3 ==> Bits.Pow2(d - 1) < size)
  {
    hide RefineCoefs, BucketDepth, Filled;
    BucketIsLeast(2 * order + 1, d);
    FilledLength(order, Norm(order), RefineCoefs(order), order + 1);
  }

  /** The degrees of all polynomials of a schedule, in the order of their composition. */
  function StageDegrees(c: Candidate): seq<nat> { Degrees(c.parts) + RefineDegrees(c.combo) }

  function RefineDegrees(combo: seq<nat>): (r: seq<nat>)
    ensures |r| == |combo|
  {
    seq(|combo|, i requires 0 <= i < |combo| => 2 * combo[i] + 1)
  }

  /** The levels that the operator infers for polynomials of these degrees, each counted as at least three. */
  function ChargedLevels(degrees: seq<nat>): nat {
    if degrees == [] then 0
    else
      var n := PolyEval.LevelsForDegree(degrees[0]);
      (if n <= 3 then 3 else n) + ChargedLevels(degrees[1..])
  }

  lemma {:induction false} ChargedAppend(a: seq<nat>, b: seq<nat>)
    ensures ChargedLevels(a + b) == ChargedLevels(a) + ChargedLevels(b)
  {
    if a == [] {
      assert a + b == b;
    } else {
      ChargedAppend(a[1..], b);
      assert (a + b)[1..] == a[1..] + b;
    }
  }

  lemma {:induction false} ChargedParts(parts: seq<nat>)
    requires forall i :: 0 <= i < |parts| ==> Supported(parts[i])
    ensures ChargedLevels(Degrees(parts)) == Total(parts)
  {
    hide PolyEval.LevelsForDegree, DegreeOf;
    if parts != [] {
      ChargedParts(parts[1..]);
      assert Degrees(parts)[1..] == Degrees(parts[1..]);
      LevelsOfPart(parts[0]);
    }
  }

  lemma LevelsOfPart(d: nat)
    requires Supported(d)
    ensures PolyEval.LevelsForDegree(DegreeOf(d)) == d
  {
    hide PolyEval.LevelsForDegree;
    PolyEval.LevelsSuffice(DegreeOf(d), d);
    PolyEval.LevelsSuffice(DegreeOf(d), d - 1);
  }

  lemma {:induction false} ChargedCombo(combo: seq<nat>)
    requires forall o :: o in combo ==> BucketDepth(2 * o + 1).Some?
    ensures ChargedLevels(RefineDegrees(combo)) == RefineDepth(combo)
  {
    hide PolyEval.LevelsForDegree, BucketDepth;
    if combo != [] {
      var o := combo[0];
      assert o in combo && forall p :: p in combo[1..] ==> p in combo;
      ChargedCombo(combo[1..]);
      assert RefineDegrees(combo)[1..] == RefineDegrees(combo[1..]);
      PolyEval.BucketMatchesInference(2 * o + 1, BucketDepth(2 * o + 1).value);
    }
  }

  /** The depth by which schedules are compared is the number of levels that the operator infers for all their
      polynomials, each counted as at least three; the second criterion is the number of polynomials. */
  lemma DepthIsLevels(t: Task, c: Candidate)
    requires GoodTask(t) && IsCandidate(t, c)
    ensures Depth(t, c) == ChargedLevels(StageDegrees(c)) && Polys(c) == |StageDegrees(c)|
  {
    ChargedAppend(Degrees(c.parts), RefineDegrees(c.combo));
    ChargedParts(c.parts);
    ChargedCombo(c.combo);
  }

  // ----- a polynomial around 1 -----

  /** The coefficients of c(1 + t). */
  function Shift(c: seq<real>): (r: seq<real>)
    ensures |r| == |c|
  {
    if c == [] then []
    else
      var s := Shift(c[1..]);
      PlusLength(s, Rise(s));
      PlusLength([c[0]], Plus(s, Rise(s)));
      Plus([c[0]], Plus(s, Rise(s)))
  }

  lemma {:induction false} PlusLength(a: seq<real>, b: seq<real>)
    ensures |Plus(a, b)| == if |a| <= |b| then |b| else |a|
    decreases |a|
  {
    if a != [] && b != [] { PlusLength(a[1..], b[1..]); }
  }

  lemma {:induction false} EvalShift(c: seq<real>, t: real)
    ensures Eval(Shift(c), t) == Eval(c, 1.0 + t)
    decreases |c|
  {
    if c != [] {
      hide *;
      var s := Shift(c[1..]);
      EvalShift(c[1..], t);
      EvalPlus([c[0]], Plus(s, Rise(s)), t);
      EvalPlus(s, Rise(s), t);
      EvalRise(s, t);
      EvalCons(c[0], [], t);
      assert [c[0]] + [] == [c[0]];
      EvalFirst(c, 1.0 + t);
      ShiftedFirst(c);
      OneMore(t, Eval(s, t));
      EvalNothing(t);
    }
  }

  lemma ShiftedFirst(c: seq<real>)
    requires c != []
    ensures Shift(c) == Plus([c[0]], Plus(Shift(c[1..]), Rise(Shift(c[1..]))))
  {}

  lemma EvalNothing(t: real)
    ensures Eval([], t) == 0.0
  {}

  lemma OneMore(t: real, v: real)
    ensures v + t * v == (1.0 + t) * v
  {}

  lemma {:induction false} CoPlus(a: seq<real>, b: seq<real>, i: int)
    ensures Co(Plus(a, b), i) == Co(a, i) + Co(b, i)
    decreases |a|
  {
    if a != [] && b != [] {
      CoPlus(a[1..], b[1..], i - 1);
    }
  }

  lemma CoRise(p: seq<real>, i: int)
    ensures Co(Rise(p), i) == Co(p, i - 1)
  {}

  lemma CoShift(c: seq<real>, i: int)
    requires c != []
    ensures Co(Shift(c), i) == (if i == 0 then c[0] else 0.0) + Co(Shift(c[1..]), i) + Co(Shift(c[1..]), i - 1)
  {
    var s := Shift(c[1..]);
    CoPlus([c[0]], Plus(s, Rise(s)), i);
    CoPlus(s, Rise(s), i);
    CoRise(s, i);
  }

  lemma {:induction false} ShiftPlus(a: seq<real>, b: seq<real>, i: int)
    ensures Co(Shift(Plus(a, b)), i) == Co(Shift(a), i) + Co(Shift(b), i)
    decreases |a|
  {
    if a != [] && b != [] {
      hide *;
      var p := Plus(a, b);
      PlusFirst(a, b);
      CoShift(p, i);
      CoShift(a, i);
      CoShift(b, i);
      ShiftPlus(a[1..], b[1..], i);
      ShiftPlus(a[1..], b[1..], i - 1);
    }
  }

  lemma PlusFirst(a: seq<real>, b: seq<real>)
    requires a != [] && b != []
    ensures Plus(a, b) != [] && Plus(a, b)[0] == a[0] + b[0] && Plus(a, b)[1..] == Plus(a[1..], b[1..])
  {}

  lemma {:induction false} ShiftTimes(p: seq<real>, k: real, i: int)
    ensures Co(Shift(Times(p, k)), i) == Co(Shift(p), i) * k
    decreases |p|
  {
    hide *;
    if p != [] {
      var q := Times(p, k);
      TimesFirst(p, k);
      CoShift(q, i);
      CoShift(p, i);
      ShiftTimes(p[1..], k, i);
      ShiftTimes(p[1..], k, i - 1);
      var first := if i == 0 then p[0] else 0.0;
      TimesFirstOnly(i, p[0], q[0], k, first);
      ThreeTimes(first, Co(Shift(p[1..]), i), Co(Shift(p[1..]), i - 1), k, Co(Shift(q[1..]), i),
        Co(Shift(q[1..]), i - 1), Co(Shift(q), i), Co(Shift(p), i));
    } else {
      ShiftNothing(k, i);
    }
  }

  lemma ShiftNothing(k: real, i: int)
    ensures Co(Shift(Times([], k)), i) == 0.0 == Co(Shift([]), i) * k
  {}

  lemma TimesFirst(p: seq<real>, k: real)
    requires p != []
    ensures Times(p, k) != [] && Times(p, k)[0] == p[0] * k && Times(p, k)[1..] == Times(p[1..], k)
  {}

  lemma TimesFirstOnly(i: int, p: real, q: real, k: real, first: real)
    requires q == p * k && first == if i == 0 then p else 0.0
    ensures (if i == 0 then q else 0.0) == first * k
  {}

  lemma ThreeTimes(a: real, b: real, c: real, k: real, x: real, y: real, l: real, s: real)
    requires x == b * k && y == c * k && l == a * k + x + y && s == a + b + c
    ensures l == s * k
  {}

  lemma ShiftRise(p: seq<real>, i: int)
    ensures Co(Shift(Rise(p)), i) == Co(Shift(p), i) + Co(Shift(p), i - 1)
  {
    assert Rise(p)[1..] == p;
    CoShift(Rise(p), i);
  }

  // ----- x times the derivative, around 1 -----

  /** Each coefficient times its degree, counted from k. */
  function Indexed(c: seq<real>, k: nat): (r: seq<real>)
    ensures |r| == |c| && forall j :: 0 <= j < |c| ==> r[j] == (j + k) as real * c[j]
  {
    if c == [] then [] else [k as real * c[0]] + Indexed(c[1..], k + 1)
  }

  /** Around 1, x f' is (1 + t) f'. */
  lemma {:induction false} IndexedShift(c: seq<real>, k: nat, i: int)
    requires i >= -1
    ensures Co(Shift(Indexed(c, k)), i) ==
      (k + i) as real * Co(Shift(c), i) + (i + 1) as real * Co(Shift(c), i + 1)
    decreases |c|
  {
    hide *;
    if c == [] || i < 0 {
      IndexedNothing(c, k, i);
    } else {
      var e, r := Indexed(c, k), c[1..];
      IndexedFirst(c, k);
      CoShift(e, i);
      CoShift(c, i);
      CoShift(c, i + 1);
      IndexedShift(r, k + 1, i);
      IndexedShift(r, k + 1, i - 1);
      var s, f, first := Shift(r), Shift(e[1..]), if i == 0 then c[0] else 0.0;
      FirstOnly(i, k as real, c[0], e[0], first);
      IndexedStep(k, i, first, Co(s, i - 1), Co(s, i), Co(s, i + 1), Co(f, i), Co(f, i - 1), Co(Shift(e), i),
        Co(Shift(c), i), Co(Shift(c), i + 1));
    }
  }

  lemma FirstOnly(i: nat, k: real, c: real, e: real, first: real)
    requires e == k * c && first == if i == 0 then c else 0.0
    ensures (if i == 0 then e else 0.0) == k * first
  {}

  lemma IndexedNothing(c: seq<real>, k: nat, i: int)
    requires i >= -1 && (c == [] || i < 0)
    ensures Co(Shift(Indexed(c, k)), i) ==
      (k + i) as real * Co(Shift(c), i) + (i + 1) as real * Co(Shift(c), i + 1)
  {}

  lemma IndexedFirst(c: seq<real>, k: nat)
    requires c != []
    ensures Indexed(c, k) != [] && Indexed(c, k)[0] == k as real * c[0] && Indexed(c, k)[1..] == Indexed(c[1..], k + 1)
  {}

  lemma IndexedStep(k: nat, i: nat, a: real, u: real, v: real, w: real, x: real, y: real, l: real, s: real, s1: real)
    requires i == 0 || a == 0.0
    requires x == (k + 1 + i) as real * v + (i + 1) as real * w
    requires y == (k + 1 + (i - 1)) as real * u + (i - 1 + 1) as real * v
    requires l == k as real * a + x + y && s == a + v + u && s1 == w + v
    ensures l == (k + i) as real * s + (i + 1) as real * s1
  {
    var kr, ir := k as real, i as real;
    assert (k + 1 + i) as real == kr + 1.0 + ir && (k + i) as real == kr + ir && (i + 1) as real == ir + 1.0;
    IndexedReal(kr, ir, a, u, v, w);
  }

  lemma IndexedReal(k: real, i: real, a: real, u: real, v: real, w: real)
    requires i == 0.0 || a == 0.0
    ensures k * a + ((k + 1.0 + i) * v + (i + 1.0) * w) + ((k + i) * u + i * v) ==
      (k + i) * (a + v + u) + (i + 1.0) * (w + v)
  {}

  // ----- (1 - x^2)^order around 1 -----

  function Flat(order: nat): seq<real> {
    if order == 0 then [1.0] else Plus(Flat(order - 1), Rise(Rise(Times(Flat(order - 1), -1.0))))
  }

  lemma FlatShiftStep(order: nat, i: int)
    requires order > 0
    ensures var s := Shift(Flat(order - 1)); Co(Shift(Flat(order)), i) == -2.0 * Co(s, i - 1) - Co(s, i - 2)
  {
    hide *;
    var p := Flat(order - 1);
    var q := Times(p, -1.0);
    FlatFirst(order);
    ShiftPlus(p, Rise(Rise(q)), i);
    ShiftRise(Rise(q), i);
    ShiftRise(q, i);
    ShiftRise(q, i - 1);
    ShiftTimes(p, -1.0, i);
    ShiftTimes(p, -1.0, i - 1);
    ShiftTimes(p, -1.0, i - 2);
    var s, r := Shift(p), Shift(q);
    FlatStepSum(Co(s, i), Co(s, i - 1), Co(s, i - 2), Co(r, i), Co(r, i - 1), Co(r, i - 2));
  }

  lemma FlatStepSum(u: real, v: real, w: real, x: real, y: real, z: real)
    requires x == u * -1.0 && y == v * -1.0 && z == w * -1.0
    ensures u + ((x + y) + (y + z)) == -2.0 * v - w
  {}

  lemma FlatFirst(order: nat)
    requires order > 0
    ensures Flat(order) == Plus(Flat(order - 1), Rise(Rise(Times(Flat(order - 1), -1.0))))
  {}

  /** Around 1, the first order coefficients vanish, and the next one does not. */
  lemma {:induction false} FlatShift(order: nat, i: int)
    requires i <= order
    ensures Co(Shift(Flat(order)), i) == if i < order then 0.0 else Power(-2.0, order)
    decreases order
  {
    hide *;
    if order == 0 {
      FlatOne(i);
    } else {
      FlatShiftStep(order, i);
      FlatShift(order - 1, i - 1);
      FlatShift(order - 1, i - 2);
      NextPower(order);
    }
  }

  lemma FlatOne(i: int)
    requires i <= 0
    ensures Co(Shift(Flat(0)), i) == if i < 0 then 0.0 else Power(-2.0, 0)
  {
    assert Shift([1.0]) == [1.0];
  }

  lemma NextPower(order: nat)
    requires order > 0
    ensures Power(-2.0, order) == -2.0 * Power(-2.0, order - 1)
  {}

  lemma {:induction false} FlatLength(order: nat)
    ensures |Flat(order)| == 2 * order + 1
  {
    if order > 0 {
      FlatLength(order - 1);
      PlusLength(Flat(order - 1), Rise(Rise(Times(Flat(order - 1), -1.0))));
    }
  }

  lemma {:induction false} FlatIs(order: nat, i: nat)
    ensures Co(Flat(order), i) == FlatCoefficient(order, i) as real
  {
    hide *;
    if order == 0 {
      FlatStart(i);
    } else {
      var p := Flat(order - 1);
      var q := Times(p, -1.0);
      FlatFirst(order);
      CoPlus(p, Rise(Rise(q)), i);
      CoRise(Rise(q), i);
      CoRise(q, i - 1);
      CoTimes(p, -1.0, i - 2);
      FlatStep(order, i);
      FlatIs(order - 1, i);
      if i >= 2 { FlatIs(order - 1, i - 2); } else { BelowZero(order - 1, i - 2); }
      FlatDifference(FlatCoefficient(order, i), FlatCoefficient(order - 1, i), FlatCoefficient(order - 1, i - 2),
        Co(Flat(order), i), Co(p, i), Co(p, i - 2), Co(q, i - 2));
    }
  }

  lemma FlatDifference(a: int, b: int, c: int, x: real, y: real, z: real, w: real)
    requires a == b - c && y == b as real && z == c as real && w == z * -1.0 && x == y + w
    ensures x == a as real
  {}

  lemma FlatStart(i: nat)
    ensures Co(Flat(0), i) == FlatCoefficient(0, i) as real
  {
    FlatEnds(0, i);
  }

  lemma CoTimes(p: seq<real>, k: real, i: int)
    ensures Co(Times(p, k), i) == Co(p, i) * k
  {}

  lemma BelowZero(order: nat, i: int)
    requires i < 0
    ensures Co(Flat(order), i) == 0.0 && FlatCoefficient(order, i) == 0
  {
  }

  // ----- the order of one refinement -----

  /** x f' is x (1 - x^2)^order over the normaliser. */
  lemma IndexedRefinement(order: nat, c: seq<real>, norm: real)
    requires norm > 0.0 && Filled(order, norm, c, order + 1)
    ensures Indexed(c, 0) == Times(Rise(Flat(order)), 1.0 / norm)
  {
    FlatLength(order);
    FilledLength(order, norm, c, order + 1);
    forall j | 0 <= j < |c|
      ensures Indexed(c, 0)[j] == Times(Rise(Flat(order)), 1.0 / norm)[j]
    {
      IndexedEntry(order, c, norm, j);
    }
  }

  lemma IndexedEntry(order: nat, c: seq<real>, norm: real, j: nat)
    requires norm > 0.0 && Filled(order, norm, c, order + 1) && j < |c| == 2 * order + 2
    requires |Flat(order)| == 2 * order + 1
    ensures Indexed(c, 0)[j] == Times(Rise(Flat(order)), 1.0 / norm)[j]
  {
    hide *;
    IndexedZero(c, j);
    if j > 0 {
      DerivativeIndex(order, norm, c, j - 1, Derivative(c)[j - 1], FlatPower(order)[j - 1]);
      DerivativeIs(c, j - 1, Derivative(c)[j - 1]);
      FlatIs(order, j - 1);
      FlatPowerCoefficient(order, j - 1);
      FlatEntry(order, j - 1);
      RiseEntry(Flat(order), j);
      OverNorm(FlatPower(order)[j - 1] as real, norm);
    } else {
      RiseEntry(Flat(order), 0);
    }
  }

  lemma IndexedZero(c: seq<real>, j: nat)
    requires j < |c|
    ensures Indexed(c, 0)[j] == j as real * c[j]
  {}

  lemma RiseEntry(p: seq<real>, j: nat)
    requires j <= |p|
    ensures |Rise(p)| == |p| + 1 && Rise(p)[j] == if j == 0 then 0.0 else p[j - 1]
  {}

  lemma FlatEntry(order: nat, i: nat)
    requires i <= 2 * order
    ensures FlatCoefficient(order, i) == if i % 2 == 0 then SignedComb(order, i / 2) else 0
    ensures i < |Flat(order)| ==> Flat(order)[i] == Co(Flat(order), i)
  {}

  lemma OverNorm(p: real, norm: real)
    requires norm > 0.0
    ensures p / norm == p * (1.0 / norm)
  {}

  lemma AroundOne(order: nat, c: seq<real>, norm: real, i: nat)
    requires norm > 0.0 && Filled(order, norm, c, order + 1) && i <= order
    ensures i as real * Co(Shift(c), i) + (i + 1) as real * Co(Shift(c), i + 1) ==
      if i < order then 0.0 else Power(-2.0, order) * (1.0 / norm)
  {
    hide *;
    IndexedShift(c, 0, i);
    IndexedRefinement(order, c, norm);
    ShiftTimes(Rise(Flat(order)), 1.0 / norm, i);
    ShiftRise(Flat(order), i);
    FlatShift(order, i);
    FlatShift(order, i - 1);
    Zero(1.0 / norm);
  }

  lemma Zero(k: real)
    ensures (0.0 + 0.0) * k == 0.0
  {}

  /** Around 1 the linear to the order-th coefficient vanish. */
  lemma {:induction false} FlatUpToOrder(order: nat, c: seq<real>, norm: real, i: nat)
    requires norm > 0.0 && Filled(order, norm, c, order + 1) && 1 <= i <= order
    ensures Co(Shift(c), i) == 0.0
  {
    hide *;
    AroundOne(order, c, norm, i - 1);
    if i > 1 { FlatUpToOrder(order, c, norm, i - 1); }
    NextVanishes((i - 1) as real, Co(Shift(c), i - 1), i as real, Co(Shift(c), i));
  }

  lemma NextVanishes(a: real, x: real, b: real, y: real)
    requires (a == 0.0 || x == 0.0) && b > 0.0 && a * x + b * y == 0.0
    ensures y == 0.0
  {}

  lemma NotFlatBeyond(order: nat, c: seq<real>, norm: real)
    requires norm > 0.0 && Filled(order, norm, c, order + 1)
    ensures Co(Shift(c), order + 1) != 0.0
  {
    hide *;
    AroundOne(order, c, norm, order);
    if order > 0 { FlatUpToOrder(order, c, norm, order); }
    PowerNotZero(-2.0, order);
    NextStays(order as real, Co(Shift(c), order), (order + 1) as real, Co(Shift(c), order + 1), Power(-2.0, order),
      norm);
  }

  lemma NextStays(a: real, x: real, b: real, y: real, p: real, norm: real)
    requires (a == 0.0 || x == 0.0) && norm > 0.0 && p != 0.0 && a * x + b * y == p * (1.0 / norm)
    ensures y != 0.0
  {
    assert (p * (1.0 / norm)) * norm == p;
    assert a * x == 0.0;
  }

  lemma {:induction false} EvalZeros(p: seq<real>, k: nat, t: real)
    requires k <= |p| && forall j :: 0 <= j < k ==> p[j] == 0.0
    ensures Eval(p, t) == Power(t, k) * Eval(p[k..], t)
    decreases k
  {
    hide *;
    if k == 0 {
      assert p[0..] == p;
      NoPowerOf(t, Eval(p, t));
    } else {
      EvalZeros(p[1..], k - 1, t);
      assert p[1..][k - 1..] == p[k..];
      EvalFirst(p, t);
      NextPowerOf(t, k - 1);
      ZeroFirst(t, p[0], Power(t, k - 1), Eval(p[k..], t), Eval(p[1..], t), Eval(p, t), Power(t, k));
    }
  }

  lemma NoPowerOf(t: real, v: real)
    ensures v == Power(t, 0) * v
  {}

  lemma ZeroFirst(t: real, a: real, p: real, v: real, r: real, e: real, q: real)
    requires a == 0.0 && r == p * v && e == a + t * r && q == t * p
    ensures e == q * v
  {
    Regrouped(t, p, v);
  }

  /** f_order is flat at 1 to order exactly order + 1. */
  lemma RefinementOrder(order: nat)
    ensures ErrorOrder(Refined(order), order + 1)
  {
    var f, c, norm, k := Refined(order), RefineCoefs(order), Norm(order), order + 1;
    var s := Shift(c);
    var h := Times(s[order + 1..], -1.0);
    NotFlatBeyond(order, c, norm);
    FilledLength(order, norm, c, order + 1);
    ValueAtOne(order, c, norm);
    forall t: real
      ensures ErrorIs(f, k, h, t)
    {
      RefinementError(order, c, norm, s, h, t);
    }
    HasOrder(f, k, h);
  }

  function Refined(order: nat): real -> real { x => Eval(RefineCoefs(order), x) }

  lemma ValueAtOne(order: nat, c: seq<real>, norm: real)
    requires norm == Norm(order) > 0.0 && Filled(order, norm, c, order + 1)
    ensures Co(Shift(c), 0) == 1.0
  {
    hide *;
    FilledAtOne(order, norm, c);
    EvalShift(c, 0.0);
    EvalAtZero(Shift(c));
  }

  lemma RefinementError(order: nat, c: seq<real>, norm: real, s: seq<real>, h: seq<real>, t: real)
    requires norm == Norm(order) > 0.0 && c == RefineCoefs(order) && s == Shift(c) && |s| == 2 * order + 2
    requires Filled(order, norm, c, order + 1) && Co(s, 0) == 1.0 && h == Times(s[order + 1..], -1.0)
    ensures ErrorIs(Refined(order), order + 1, h, t)
  {
    hide *;
    TailZeros(order, c, norm, s, t);
    RefinedIs(order, 1.0 + t);
    EvalFirst(s, t);
    FirstCo(s);
    NextPowerOf(t, order);
    EvalShift(c, t);
    EvalTimes(s[order + 1..], -1.0, t);
    ErrorOfTail(Eval(s, t), t, Eval(s[1..], t), Power(t, order), Power(t, order + 1), Eval(s[order + 1..], t),
      Eval(h, t));
    IsError(Refined(order), order + 1, h, t);
  }

  lemma TailZeros(order: nat, c: seq<real>, norm: real, s: seq<real>, t: real)
    requires norm > 0.0 && Filled(order, norm, c, order + 1) && s == Shift(c) && |s| == 2 * order + 2
    ensures Eval(s[1..], t) == Power(t, order) * Eval(s[order + 1..], t)
  {
    hide *;
    forall j | 0 <= j < order
      ensures s[1..][j] == 0.0
    {
      FlatUpToOrder(order, c, norm, j + 1);
      CoIs(s, j + 1);
    }
    assert s[1..][order..] == s[order + 1..];
    EvalZeros(s[1..], order, t);
  }

  lemma CoIs(p: seq<real>, i: nat)
    requires i < |p|
    ensures Co(p, i) == p[i]
  {}

  lemma FirstCo(s: seq<real>)
    requires s != []
    ensures Co(s, 0) == s[0]
  {}

  lemma RefinedIs(order: nat, x: real)
    ensures Refined(order)(x) == Eval(RefineCoefs(order), x)
  {}

  lemma NextPowerOf(t: real, order: nat)
    ensures Power(t, order + 1) == t * Power(t, order)
  {}

  lemma ErrorOfTail(v: real, t: real, r: real, p: real, q: real, tail: real, h: real)
    requires v == 1.0 + t * r && r == p * tail && q == t * p && h == tail * -1.0
    ensures 1.0 - v == q * h
  {
    Regrouped(t, p, tail);
    assert q * h == -(q * tail);
  }

  // ----- combinations -----

  /** The refinements of a combination, one after the other. */
  function Through(combo: seq<nat>, x: real): real {
    if combo == [] then x else Through(combo[1..], Refined(combo[0])(x))
  }

  function Composite(combo: seq<nat>): real -> real { x => Through(combo, x) }

  function Orders(combo: seq<nat>): nat {
    if combo == [] then 1 else (combo[0] + 1) * Orders(combo[1..])
  }

  /** A combination is flat at 1 to the product of its orders, each plus one. */
  lemma {:induction false} CompositeOrder(combo: seq<nat>)
    ensures ErrorOrder(Composite(combo), Orders(combo))
    decreases |combo|
  {
    hide *;
    if combo == [] {
      NothingComposed();
      IdentityOrder(Composite([]));
    } else {
      CompositeOrder(combo[1..]);
      RefinementOrder(combo[0]);
      FirstComposed(combo);
      ComposedOrder(Refined(combo[0]), Composite(combo[1..]), Composite(combo), combo[0] + 1, Orders(combo[1..]));
    }
  }

  lemma NothingComposed()
    ensures Orders([]) == 1 && forall x: real :: Composite([])(x) == x
  {}

  lemma FirstComposed(combo: seq<nat>)
    requires combo != []
    ensures Orders(combo) == (combo[0] + 1) * Orders(combo[1..])
    ensures forall x: real :: Composite(combo)(x) == Composite(combo[1..])(Refined(combo[0])(x))
  {
    hide Refined;
  }

  lemma {:induction false} FactorIsOrders(combo: seq<nat>)
    ensures Factor(combo) == Orders(combo) as real
  {
    if combo != [] {
      FactorIsOrders(combo[1..]);
      RealProduct(combo[0] + 1, Orders(combo[1..]));
    }
  }

  lemma {:induction false} RealProduct(a: nat, b: nat)
    ensures (a * b) as real == a as real * b as real
  {
    if a > 0 {
      RealProduct(a - 1, b);
      assert a * b == (a - 1) * b + b;
      assert a as real == (a - 1) as real + 1.0;
    }
  }

  /** The factor of a combination is the order to which its composite is flat at 1. */
  lemma FactorIsOrder(combo: seq<nat>, k: nat)
    ensures ErrorOrder(Composite(combo), k) <==> Factor(combo) == k as real
  {
    CompositeOrder(combo);
    FactorIsOrders(combo);
    if ErrorOrder(Composite(combo), k) { OrderIsUnique(Composite(combo), k, Orders(combo)); }
  }

  /** Stable fits of these degrees, each on what the one before it leaves, that measure so many bits. */
  ghost predicate Measures(env: Env, degrees: seq<nat>, records: seq<Record>, bits: real) {
    |records| == |degrees| && (forall i :: 0 <= i < |records| ==> StageFits(env, degrees, records, i)) &&
    env.measure(records) == Some(bits)
  }

  lemma BaseBitsMeasure(env: Env, degrees: seq<nat>, bits: real)
    ensures BaseBits(env, degrees) == Some(bits) <==> exists records :: Measures(env, degrees, records, bits)
  {
    hide Records;
    forall records
      ensures Records(env, degrees) == Some(records) && env.measure(records) == Some(bits) <==>
              Measures(env, degrees, records, bits)
    {
      RecordsAre(env, degrees, records);
    }
  }

  /** So a schedule passes iff its stages fit and the bits measured of them, times the order to which its refinements
      are flat at 1, reach the target. */
  lemma PassesByOrder(t: Task, c: Candidate, k: nat)
    requires ErrorOrder(Composite(c.combo), k)
    ensures Passes(t, c) <==>
      IsCandidate(t, c) &&
      exists records, bits :: Measures(t.env, Degrees(c.parts), records, bits) && bits * k as real >= t.target
  {
    hide *;
    FactorIsOrder(c.combo, k);
    if IsCandidate(t, c) {
      PassesMeans(t, c, k as real);
    } else {
      PassingIsCandidate(t, c);
    }
    var base := BaseBits(t.env, Degrees(c.parts));
    if base.Some? {
      BaseBitsMeasure(t.env, Degrees(c.parts), base.value);
    }
    forall records, bits | Measures(t.env, Degrees(c.parts), records, bits)
      ensures base == Some(bits)
    {
      BaseBitsMeasure(t.env, Degrees(c.parts), bits);
    }
  }

  lemma PassingIsCandidate(t: Task, c: Candidate)
    ensures Passes(t, c) ==> IsCandidate(t, c)
  {}

  lemma PassesMeans(t: Task, c: Candidate, factor: real)
    requires IsCandidate(t, c) && factor == Factor(c.combo)
    ensures Passes(t, c) <==>
      BaseBits(t.env, Degrees(c.parts)).Some? && BaseBits(t.env, Degrees(c.parts)).value * factor >= t.target
  {
    hide BaseBits, Factor, IsCandidate, Degrees;
  }
}
