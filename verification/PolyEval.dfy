/**
 Clenshaw evaluation and level use of a polynomial operator (`h_poly_eval_base.py`), and the evaluation helpers of the
 fitting code (`remez_utils.py`). Levels per degree are the exact base-two logarithm, rounded up, and agree with what
 the schedule search charges.
 */
module PolyEval {
  import opened Reals
  import opened Wrappers
  import opened Bits
  import opened ModulusChain
  import opened DropConfigs
  import opened LevelTracing
  import SignSearch

  // ----- Chebyshev sums -----

  /** The Chebyshev polynomial of the first kind. */
  function T(k: nat, x: real): real {
    if k == 0 then 1.0 else if k == 1 then x else 2.0 * x * T(k - 1, x) - T(k - 2, x)
  }

  /** T_k at the mean of y and 1/y is the mean of their k-th powers: with y on the unit circle, the cosine of k times an
      angle. */
  lemma {:induction false} ChebyshevIs(k: nat, x: real, y: real, z: real)
    requires y * z == 1.0 && 2.0 * x == y + z
    ensures 2.0 * T(k, x) == Power(y, k) + Power(z, k)
    decreases k
  {
    hide T, Power;
    TStep(k, x);
    PowerStep(y, 0);
    PowerStep(z, 0);
    if k == 1 {
      PowerStep(y, 1);
      PowerStep(z, 1);
    } else if k > 1 {
      ChebyshevIs(k - 1, x, y, z);
      ChebyshevIs(k - 2, x, y, z);
      NextMean(k, x, y, z, T(k - 1, x), T(k - 2, x));
    }
  }

  lemma TStep(k: nat, x: real)
    ensures T(k, x) == if k == 0 then 1.0 else if k == 1 then x else 2.0 * x * T(k - 1, x) - T(k - 2, x)
  {}

  lemma PowerStep(x: real, n: nat)
    ensures Power(x, n) == if n == 0 then 1.0 else x * Power(x, n - 1)
  {}

  lemma NextMean(k: nat, x: real, y: real, z: real, t: real, u: real)
    requires k > 1 && y * z == 1.0 && 2.0 * x == y + z
    requires 2.0 * t == Power(y, k - 1) + Power(z, k - 1) && 2.0 * u == Power(y, k - 2) + Power(z, k - 2)
    ensures 2.0 * (2.0 * x * t - u) == Power(y, k) + Power(z, k)
  {
    hide Power;
    PowerStep(y, k);
    PowerStep(z, k);
    PowerStep(y, k - 1);
    PowerStep(z, k - 1);
    Mixed(x, y, z, t, Power(y, k - 1), Power(z, k - 1), Power(y, k - 2), Power(z, k - 2));
  }

  lemma Mixed(x: real, y: real, z: real, t: real, p: real, q: real, p1: real, q1: real)
    requires y * z == 1.0 && 2.0 * x == y + z && 2.0 * t == p + q && p == y * p1 && q == z * q1
    ensures 2.0 * (2.0 * x * t) - p1 - q1 == y * p + z * q
  {
    assert z * p == (y * z) * p1 && y * q == (y * z) * q1;
    assert 2.0 * (2.0 * x * t) == (y + z) * (p + q);
  }

  /** The sum of c[i] * T_(k+i)(x). */
  function SumFromDegree(c: seq<real>, k: nat, x: real): real {
    if c == [] then 0.0 else c[0] * T(k, x) + SumFromDegree(c[1..], k + 1, x)
  }

  /** What a coefficient list means: the sum of c_k * T_k(x). */
  function ChebSum(c: seq<real>, x: real): real { SumFromDegree(c, 0, x) }

  // ----- the recurrence -----

  datatype Registers = Registers(curr: real, next: real)

  /** The two registers after the coefficients of c, highest degree first. */
  function Clenshaw(c: seq<real>, x: real): Registers {
    if c == [] then Registers(0.0, 0.0) else Shift(Clenshaw(c[1..], x), x, c[0])
  }

  /** One turn of the recurrence. */
  function Shift(b: Registers, x: real, c: real): Registers {
    Registers(2.0 * x * b.curr - b.next + c, b.curr)
  }

  lemma ClenshawFrom(c: seq<real>, x: real, i: nat)
    requires i < |c|
    ensures Clenshaw(c[i..], x) == Shift(Clenshaw(c[i + 1..], x), x, c[i])
  {
    assert c[i..][1..] == c[i + 1..];
  }

  /** T_(k-1), with T_(-1) = T_1. */
  function Before(k: nat, x: real): real { if k == 0 then x else T(k - 1, x) }

  lemma RecurrenceStep(x: real, c: real, b1: real, b2: real, before: real, now: real, after: real)
    requires after == 2.0 * x * now - before
    ensures (2.0 * x * b1 - b2 + c) * now - b1 * before == c * now + (b1 * after - b2 * now)
  {
    assert b1 * after == b1 * (2.0 * x * now) - b1 * before;
    assert b1 * (2.0 * x * now) == (2.0 * x * b1) * now;
  }

  /** The registers weigh two neighbouring polynomials. */
  function Weighed(b: Registers, now: real, before: real): real { b.curr * now - b.next * before }

  lemma ShiftWeighed(b: Registers, x: real, c: real, now: real, before: real, after: real)
    requires after == 2.0 * x * now - before
    ensures Weighed(Shift(b, x, c), now, before) == c * now + Weighed(b, after, now)
  {
    RecurrenceStep(x, c, b.curr, b.next, before, now, after);
  }

  /** The same sum with the two latest polynomial values carried along. */
  function SumBy(c: seq<real>, x: real, now: real, before: real): real {
    if c == [] then 0.0 else c[0] * now + SumBy(c[1..], x, 2.0 * x * now - before, now)
  }

  lemma {:induction false} SumByDegree(c: seq<real>, k: nat, x: real, now: real, before: real)
    requires now == T(k, x) && before == Before(k, x)
    ensures SumFromDegree(c, k, x) == SumBy(c, x, now, before)
    decreases |c|
  {
    if c != [] {
      var after := T(k + 1, x);
      NextDegree(k, x, after);
      SumByDegree(c[1..], k + 1, x, after, now);
      SumByHead(c, x, now, before, after);
      SumFromHead(c, k, x, now, SumBy(c[1..], x, after, now));
    }
  }

  lemma SumByHead(c: seq<real>, x: real, now: real, before: real, after: real)
    requires c != [] && after == 2.0 * x * now - before
    ensures SumBy(c, x, now, before) == c[0] * now + SumBy(c[1..], x, after, now)
  {}

  lemma SumFromHead(c: seq<real>, k: nat, x: real, now: real, rest: real)
    requires c != [] && now == T(k, x) && rest == SumFromDegree(c[1..], k + 1, x)
    ensures SumFromDegree(c, k, x) == c[0] * now + rest
  {}

  lemma {:induction false} ClenshawSum(c: seq<real>, x: real, now: real, before: real)
    ensures SumBy(c, x, now, before) == Weighed(Clenshaw(c, x), now, before)
    decreases |c|, 1
  {
    if c != [] {
      ClenshawStep(c, x, now, before, 2.0 * x * now - before);
    }
  }

  lemma ClenshawStep(c: seq<real>, x: real, now: real, before: real, after: real)
    requires c != [] && after == 2.0 * x * now - before
    ensures SumBy(c, x, now, before) == Weighed(Clenshaw(c, x), now, before)
    decreases |c|, 0
  {
    ClenshawSum(c[1..], x, after, now);
    ShiftWeighed(Clenshaw(c[1..], x), x, c[0], now, before, after);
  }

  lemma NextDegree(k: nat, x: real, t: real)
    requires t == T(k + 1, x)
    ensures t == 2.0 * x * T(k, x) - Before(k, x)
  {}

  /** The two register endings in use agree with the Chebyshev sum, for every list and every x. */
  lemma EndingsAgree(c: seq<real>, x: real)
    ensures Clenshaw(c, x).curr - x * Clenshaw(c, x).next == ChebSum(c, x)
    ensures c != [] ==> c[0] + x * Clenshaw(c[1..], x).curr - Clenshaw(c[1..], x).next == ChebSum(c, x)
  {
    SumByDegree(c, 0, x, 1.0, x);
    ClenshawSum(c, x, 1.0, x);
    if c != [] {
      var b := Clenshaw(c[1..], x);
      assert Clenshaw(c, x) == Registers(2.0 * x * b.curr - b.next + c[0], b.curr);
    }
  }

  /** The affine change of variable that maps [left, right] to [-1, 1]. */
  function Rescale(input: real, left: real, right: real): real
    requires left != right
  {
    input * (2.0 / (right - left)) + (-(right + left) / (right - left))
  }

  lemma RescaleMapsInterval(input: real, left: real, right: real, w: real)
    requires w == right - left > 0.0
    ensures Rescale(left, left, right) == -1.0 && Rescale(right, left, right) == 1.0
    ensures -1.0 <= Rescale(input, left, right) <= 1.0 <==> left <= input <= right
  {
    RescaleTimesWidth(left, left, right, w, Rescale(left, left, right));
    RescaleTimesWidth(right, left, right, w, Rescale(right, left, right));
    RescaleTimesWidth(input, left, right, w, Rescale(input, left, right));
    Divide(Rescale(left, left, right), -1.0, w, -w, -w);
    Divide(Rescale(right, left, right), 1.0, w, w, w);
    Divide(Rescale(input, left, right), 1.0, w, 2.0 * input - right - left, w);
    Divide(-1.0, Rescale(input, left, right), w, -w, 2.0 * input - right - left);
  }

  lemma RescaleTimesWidth(input: real, left: real, right: real, w: real, r: real)
    requires w == right - left > 0.0 && r == Rescale(input, left, right)
    ensures r * w == 2.0 * input - right - left
  {
    var a, b := 2.0 / w, -(right + left) / w;
    assert a * w == 2.0 && b * w == -(right + left);
    Distribute(input, a, b, w, r, 2.0, -(right + left));
  }

  lemma Distribute(input: real, a: real, b: real, w: real, r: real, aw: real, bw: real)
    requires r == input * a + b && aw == a * w && bw == b * w
    ensures r * w == input * aw + bw
  {
    assert (input * a) * w == input * (a * w);
    assert r * w == (input * a) * w + b * w;
  }

  lemma Divide(a: real, b: real, w: real, aw: real, bw: real)
    requires w > 0.0 && aw == a * w && bw == b * w
    ensures a <= b <==> aw <= bw
    ensures a == b <==> aw == bw
  {
    if a < b { assert (b - a) * w > 0.0 && (b - a) * w == bw - aw; }
    if a > b { assert (a - b) * w > 0.0 && (a - b) * w == aw - bw; }
  }

  /** `HomPolyEvalBase.forward_clear` on one value. */
  method ForwardClear(input: real, coefs: seq<real>, left: real, right: real) returns (r: real)
    requires left != right
    ensures r == ChebSum(coefs, Rescale(input, left, right))
  {
    var x := input * (2.0 / (right - left));
    x := x + (-(right + left) / (right - left));
    var bNext, bCurr := 0.0, 0.0;
    var i := |coefs|;
    while i > 0
      invariant 0 <= i <= |coefs|
      invariant Registers(bCurr, bNext) == Clenshaw(coefs[i..], x)
    {
      i := i - 1;
      ClenshawFrom(coefs, x, i);
      assert Shift(Registers(bCurr, bNext), x, coefs[i]) == Clenshaw(coefs[i..], x);
      bNext, bCurr := bCurr, 2.0 * x * bCurr - bNext + coefs[i];
    }
    EndingsAgree(coefs, x);
    assert coefs[0..] == coefs;
    r := bCurr - x * bNext;
  }

  /** The `cheb` helper of the fitting code: the loop stops at degree 1 and adds the constant last. */
  method Cheb(coeffs: seq<real>, u: real) returns (r: real)
    ensures r == ChebSum(coeffs, u)
  {
    var n := |coeffs| - 1;
    if n < 0 {
      return 0.0;
    }
    EndingsAgree(coeffs, u);
    if n == 0 {
      return coeffs[0];
    }
    assert Clenshaw([], u) == Registers(0.0, 0.0);
    hide Clenshaw, ChebSum;
    var b1, b2 := 0.0, 0.0;
    var k := n;
    while k > 0
      invariant 0 <= k <= n
      invariant Registers(b1, b2) == Clenshaw(coeffs[k + 1..], u)
    {
      ClenshawFrom(coeffs, u, k);
      assert Shift(Registers(b1, b2), u, coeffs[k]) == Clenshaw(coeffs[k..], u);
      b1, b2 := 2.0 * u * b1 - b2 + coeffs[k], b1;
      k := k - 1;
    }
    r := coeffs[0] + u * b1 - b2;
  }

  // ----- levels -----

  /** `ceil(log2(n))` for n >= 1. */
  function CeilLog2(n: nat): (d: nat)
    requires n >= 1
    ensures n <= Pow2(d) && (d > 0 ==> Pow2(d - 1) < n)
  {
    if n == 1 then 0 else 1 + CeilLog2((n + 1) / 2)
  }

  /** Levels for a polynomial of one degree. */
  function LevelsForDegree(degree: nat): nat { CeilLog2(degree + 1) }

  /** n levels are exactly enough for degree 2^n - 1. */
  lemma LevelsSuffice(degree: nat, n: nat)
    ensures LevelsForDegree(degree) <= n <==> degree <= Pow2(n) - 1
  {
    var d := LevelsForDegree(degree);
    if d <= n { Pow2Monotone(d, n); } else { Pow2Monotone(n, d - 1); }
  }

  /** The schedule search charges a bucket exactly the levels that the operator infers, but at least three. */
  lemma BucketMatchesInference(degree: nat, depth: nat)
    requires SignSearch.BucketDepth(degree) == Some(depth)
    ensures depth == if LevelsForDegree(degree) <= 3 then 3 else LevelsForDegree(degree)
  {
    SignSearch.BucketIsLeast(degree, depth);
    LevelsSuffice(degree, depth);
    LevelsSuffice(degree, depth - 1);
  }

  /** The level that the change of variable costs. */
  function RescaleLevels(left: real, right: real, tol: real): nat
    requires left != right
  {
    if (left != -1.0 || right != 1.0) && Abs(2.0 / (right - left) - 1.0) > tol then 1 else 0
  }

  /** The change of variable costs a level iff it stretches by a factor that differs from 1 by more than the tolerance;
      on [-1, 1] it never does. */
  lemma RescaleCosts(left: real, right: real, tol: real)
    requires left != right
    ensures var stretch := Rescale(1.0, left, right) - Rescale(0.0, left, right);
      RescaleLevels(left, right, tol) ==
      if (stretch - 1.0 <= tol && 1.0 - stretch <= tol) || (left == -1.0 && right == 1.0) then 0 else 1
  {
    StretchIs(left, right, 2.0 / (right - left), -(right + left) / (right - left));
  }

  lemma StretchIs(left: real, right: real, k: real, m: real)
    requires left != right && k == 2.0 / (right - left) && m == -(right + left) / (right - left)
    ensures Rescale(1.0, left, right) == 1.0 * k + m && Rescale(0.0, left, right) == 0.0 * k + m
  {}

  /** What inference gives: one rescale if the change of variable costs a level, then the levels of the degree. */
  function EvalState(ch: Chain, defaultUp: real, s: Meta, rescales: nat, levels: nat,
          budget: Option<set<nat>>): Option<Meta>
    requires ValidChain(ch) && Formed(ch, s)
  {
    if rescales == 0 then LevelsDown(ch, s, levels, budget)
    else
      var t := Rescaled(ch, defaultUp, s, true, budget, None);
      if t.None? then None else LevelsDown(ch, t.value, levels, budget)
  }

  /** From ascending rows inference fails iff the budgeted rows hold fewer levels than the rescale and the evaluation
      tree need, and otherwise removes exactly those and keeps the scale. */
  lemma EvalStateMeaning(ch: Chain, defaultUp: real, s: Meta, rescales: nat, levels: nat, budget: Option<set<nat>>,
          r: Option<Meta>)
    requires ValidChain(ch) && Good(ch, s) && Formed(ch, s) && Ascending(s.rows) && rescales <= 1
    requires r == EvalState(ch, defaultUp, s, rescales, levels, budget)
    ensures r.Some? <==> BudgetLive(s, budget) >= rescales + levels
    ensures r.Some? ==> Good(ch, r.value) && r.value.scale == s.scale && Live(r.value) == Live(s) - rescales - levels
  {
    if rescales == 0 {
      AscendingRun(ch, 1.0, s, levels, budget);
      LevelsDownMeaning(ch, s, levels, budget, r);
    } else {
      AscendingIsRight(s, Step.Rescale(true, budget, None));
      var t := Rescaled(ch, defaultUp, s, true, budget, None);
      RescaledMeaning(ch, defaultUp, s, budget, None, t);
      if t.Some? {
        AscendingRun(ch, 1.0, t.value, levels, budget);
        LevelsDownMeaning(ch, t.value, levels, budget, r);
      }
    }
  }

  /** `infer_output_level_and_scale`. */
  method InferLevels(log: DropLog, defaultUp: real, s: Meta, coefs: nat, left: real, right: real, tol: real,
          budget: Option<set<nat>>) returns (r: Option<Meta>)
    requires ValidChain(log.ch) && Formed(log.ch, s) && coefs > 0 && left != right
    modifies log`dropOrder
    ensures var rescales, levels := RescaleLevels(left, right, tol), LevelsForDegree(coefs - 1);
      r == EvalState(log.ch, defaultUp, s, rescales, levels, budget) &&
      (Good(log.ch, s) && Ascending(s.rows) ==>
        (r.Some? <==> BudgetLive(s, budget) >= rescales + levels) &&
        (r.Some? ==> r.value.scale == s.scale && Live(r.value) == Live(s) - rescales - levels))
  {
    var needsRescale := !(left == -1.0) || !(right == 1.0);
    var mul := 2.0 / (right - left);
    var levels := LevelsForDegree(coefs - 1);
    ghost var rescales := RescaleLevels(left, right, tol);
    ghost var inferred := EvalState(log.ch, defaultUp, s, rescales, levels, budget);
    if Good(log.ch, s) && Ascending(s.rows) {
      EvalStateMeaning(log.ch, defaultUp, s, rescales, levels, budget, inferred);
    }
    var input := s;
    if needsRescale && Abs(mul - 1.0) > tol {
      var t := log.OptionalModswitch(defaultUp, s, true, budget, None);
      if t.None? {
        return None;
      }
      input := t.value;
    }
    r := log.ModswitchByNumLevels(input, levels, budget);
  }
}
