/**
 The golden-section and ternary bracket refinements of `remez_utils.py`, over exact reals and any error function.
 */
module ExtremumSearch {
  import opened Reals

  datatype Bracket = Bracket(lo: real, hi: real)

  /** mu times the error: the function whose maximum the search looks for. */
  function Signed(err: real -> real, mu: int, u: real): real {
    if mu > 0 then err(u) else -err(u)
  }

  /** g rises strictly up to `top` and falls strictly after it. */
  ghost predicate Unimodal(err: real -> real, mu: int, b: Bracket, top: real) {
    b.lo <= top <= b.hi &&
    (forall x, y :: b.lo <= x < y <= top ==> Signed(err, mu, x) < Signed(err, mu, y)) &&
    forall x, y :: top <= x < y <= b.hi ==> Signed(err, mu, x) > Signed(err, mu, y)
  }

  /** The error has its one peak in the bracket at `top`: it rises up to there and falls after it. */
  ghost predicate Peak(err: real -> real, b: Bracket, top: real) {
    b.lo <= top <= b.hi && (forall x, y :: b.lo <= x < y <= top ==> err(x) < err(y)) &&
    forall x, y :: top <= x < y <= b.hi ==> err(x) > err(y)
  }

  ghost predicate Valley(err: real -> real, b: Bracket, bottom: real) {
    b.lo <= bottom <= b.hi && (forall x, y :: b.lo <= x < y <= bottom ==> err(x) > err(y)) &&
    forall x, y :: bottom <= x < y <= b.hi ==> err(x) < err(y)
  }

  /** A positive mu looks for a peak of the error, any other one for a valley. */
  lemma PeakOrValley(err: real -> real, mu: int, b: Bracket, top: real)
    ensures Unimodal(err, mu, b, top) <==> if mu > 0 then Peak(err, b, top) else Valley(err, b, top)
  {
    assert forall x :: Signed(err, mu, x) == if mu > 0 then err(x) else -err(x);
  }

  /** One step of a section search that evaluates both probes. */
  function Step(err: real -> real, mu: int, b: Bracket, x1: real, x2: real): Bracket {
    if Signed(err, mu, x1) < Signed(err, mu, x2) then Bracket(x1, b.hi) else Bracket(b.lo, x2)
  }

  lemma StepKeepsTop(err: real -> real, mu: int, b: Bracket, x1: real, x2: real, top: real)
    requires Unimodal(err, mu, b, top) && b.lo <= x1 < x2 <= b.hi
    ensures Unimodal(err, mu, Step(err, mu, b, x1, x2), top)
  {
    if top < x1 { assert Signed(err, mu, x1) > Signed(err, mu, x2); }
    if x2 < top { assert Signed(err, mu, x1) < Signed(err, mu, x2); }
  }

  /** The width after n steps that each keep the fraction `ratio`. */
  function Width(ratio: real, n: nat, w: real): real
    decreases n
  {
    if n == 0 then w else Width(ratio, n - 1, ratio * w)
  }

  // ----- sections that keep the fraction `ratio` of the bracket -----

  function Kept(b: Bracket, ratio: real): real { ratio * (b.hi - b.lo) }

  function Left(b: Bracket, ratio: real): real { b.hi - Kept(b, ratio) }

  function Right(b: Bracket, ratio: real): real { b.lo + Kept(b, ratio) }

  /** The plain search: n steps, both probes evaluated in each. */
  function Search(err: real -> real, mu: int, b: Bracket, ratio: real, n: nat): Bracket
    decreases n
  {
    if n == 0 then b
    else Search(err, mu, Step(err, mu, b, Left(b, ratio), Right(b, ratio)), ratio, n - 1)
  }

  /** Where the probes are always equal, the left part stays. */
  lemma {:induction false} TiesKeepLeft(err: real -> real, mu: int, b: Bracket, ratio: real, n: nat)
    requires forall x, y :: err(x) == err(y)
    ensures Search(err, mu, b, ratio, n).lo == b.lo
    decreases n
  {
    if n > 0 {
      var x1, x2 := Left(b, ratio), Right(b, ratio);
      assert err(x1) == err(x2);
      TiesKeepLeft(err, mu, Step(err, mu, b, x1, x2), ratio, n - 1);
      hide Left, Right;
    }
  }

  lemma Grows(a: real, b: real, w: real, aw: real, bw: real)
    requires a < b && w > 0.0 && aw == a * w && bw == b * w
    ensures aw < bw
  {
    assert (b - a) * w > 0.0 && (b - a) * w == bw - aw;
  }

  lemma KeptRange(ratio: real, w: real, kept: real)
    requires 0.5 < ratio < 1.0 && w > 0.0 && kept == ratio * w
    ensures w < 2.0 * kept && kept < w
  {
    Grows(0.5, ratio, w, 0.5 * w, kept);
    Grows(ratio, 1.0, w, kept, w);
  }

  lemma Probes(b: Bracket, ratio: real)
    requires 0.5 < ratio < 1.0 && b.lo < b.hi
    ensures b.lo < Left(b, ratio) < Right(b, ratio) < b.hi
  {
    KeptRange(ratio, b.hi - b.lo, Kept(b, ratio));
  }

  /** The plain search keeps a unimodal function's extremum in the bracket. */
  lemma {:induction false} SearchKeepsTop(err: real -> real, mu: int, b: Bracket, ratio: real, n: nat, top: real)
    requires 0.5 < ratio < 1.0 && b.lo < b.hi && Unimodal(err, mu, b, top)
    ensures Unimodal(err, mu, Search(err, mu, b, ratio, n), top)
    decreases n
  {
    if n > 0 {
      Probes(b, ratio);
      StepKeepsTop(err, mu, b, Left(b, ratio), Right(b, ratio), top);
      SearchKeepsTop(err, mu, Step(err, mu, b, Left(b, ratio), Right(b, ratio)), ratio, n - 1, top);
    }
  }

  lemma WidthStep(ratio: real, n: nat, w: real, w2: real)
    requires n > 0 && w2 == ratio * w
    ensures Width(ratio, n, w) == Width(ratio, n - 1, w2)
  {}

  /** The bracket shrinks by the ratio in each step. */
  lemma {:induction false} SearchWidth(err: real -> real, mu: int, b: Bracket, ratio: real, n: nat)
    ensures Search(err, mu, b, ratio, n).hi - Search(err, mu, b, ratio, n).lo == Width(ratio, n, b.hi - b.lo)
    decreases n
  {
    if n > 0 {
      var next := Step(err, mu, b, Left(b, ratio), Right(b, ratio));
      assert next.hi - next.lo == Kept(b, ratio);
      SearchWidth(err, mu, next, ratio, n - 1);
      WidthStep(ratio, n, b.hi - b.lo, next.hi - next.lo);
    }
  }

  lemma {:induction false} WidthIsPower(ratio: real, n: nat, w: real)
    ensures Width(ratio, n, w) == Power(ratio, n) * w
    decreases n
  {
    if n > 0 {
      WidthIsPower(ratio, n - 1, ratio * w);
      Shrinks(Power(ratio, n - 1), ratio, w, ratio * w);
    }
  }

  lemma Shrinks(p: real, ratio: real, w: real, w2: real)
    requires w2 == ratio * w
    ensures p * w2 == (ratio * p) * w
  {}

  /** So the midpoint is within half the final width of the extremum. */
  lemma MidpointIsClose(err: real -> real, mu: int, b: Bracket, ratio: real, n: nat, top: real, r: Bracket, half: real)
    requires 0.5 < ratio < 1.0 && b.lo < b.hi && Unimodal(err, mu, b, top) && r == Search(err, mu, b, ratio, n)
    requires half == Width(ratio, n, b.hi - b.lo) / 2.0
    ensures -half <= (r.lo + r.hi) / 2.0 - top <= half
  {
    SearchKeepsTop(err, mu, b, ratio, n, top);
    SearchWidth(err, mu, b, ratio, n);
    Midpoint(r.lo, r.hi, top, half, Width(ratio, n, b.hi - b.lo));
  }

  lemma Midpoint(lo: real, hi: real, top: real, half: real, w: real)
    requires lo <= top <= hi && hi - lo == w && half == w / 2.0
    ensures -half <= (lo + hi) / 2.0 - top <= half
  {}

  /** Half of what n steps leave of a bracket of width w. */
  function HalfWidth(ratio: real, n: nat, w: real): real { Power(ratio, n) * w / 2.0 }

  lemma HalfWidthIs(ratio: real, n: nat, w: real)
    ensures Width(ratio, n, w) / 2.0 == HalfWidth(ratio, n, w)
  {
    WidthIsPower(ratio, n, w);
  }

  // ----- the golden section -----

  /** The ratio satisfies GR^2 + GR = 1, so the surviving probe is a probe of the smaller bracket. */
  lemma ProbeSurvives(b: Bracket, g: real, w: real)
    requires g * g + g == 1.0 && w == b.hi - b.lo
    ensures Left(Bracket(Left(b, g), b.hi), g) == Right(b, g)
    ensures Right(Bracket(b.lo, Right(b, g)), g) == Left(b, g)
  {
    assert g * (g * w) == (g * g) * w == (1.0 - g) * w == w - g * w;
  }

  lemma GoldenRange(g: real)
    requires g * g + g == 1.0 && g > 0.0
    ensures 0.5 < g < 1.0
  {
    assert g * g > 0.0;
    assert (g - 0.5) * (g + 1.5) == (g * g + g) - 0.75;
  }

  /** The loop of `scan_extrema`, with one new evaluation per step: it ends on the bracket of the plain search. */
  method GoldenSection(err: real -> real, lo0: real, hi0: real, mu: int, g: real, iters: nat)
    returns (u: real, e: real, ghost b: Bracket)
    requires g * g + g == 1.0 && g > 0.0
    ensures b == Search(err, mu, Bracket(lo0, hi0), g, iters)
    ensures u == (b.lo + b.hi) / 2.0 && e == err(u)
  {
    var s := if mu > 0 then 1.0 else -1.0;
    var lo, hi := lo0, hi0;
    var x1, x2 := hi - g * (hi - lo), lo + g * (hi - lo);
    var f1, f2 := s * err(x1), s * err(x2);
    for i := 0 to iters
      invariant x1 == Left(Bracket(lo, hi), g) && x2 == Right(Bracket(lo, hi), g)
      invariant f1 == Signed(err, mu, x1) && f2 == Signed(err, mu, x2)
      invariant Search(err, mu, Bracket(lo0, hi0), g, iters) == Search(err, mu, Bracket(lo, hi), g, iters - i)
    {
      ProbeSurvives(Bracket(lo, hi), g, hi - lo);
      if f1 < f2 {
        lo, x1, f1 := x1, x2, f2;
        x2 := lo + g * (hi - lo);
        f2 := s * err(x2);
      } else {
        hi, x2, f2 := x2, x1, f1;
        x1 := hi - g * (hi - lo);
        f1 := s * err(x1);
      }
    }
    b := Bracket(lo, hi);
    u := (lo + hi) / 2.0;
    e := err(u);
  }

  // ----- the ternary search -----

  const TWO_THIRDS: real := 2.0 / 3.0

  /** `_ternary`: the plain search that keeps two thirds. */
  method Ternary(err: real -> real, lo0: real, hi0: real, mu: int, iters: nat)
    returns (u: real, e: real, ghost b: Bracket)
    ensures b == Search(err, mu, Bracket(lo0, hi0), TWO_THIRDS, iters)
    ensures u == 0.5 * (b.lo + b.hi) && e == err(u)
  {
    var lo, hi := lo0, hi0;
    for i := 0 to iters
      invariant Search(err, mu, Bracket(lo0, hi0), TWO_THIRDS, iters) ==
        Search(err, mu, Bracket(lo, hi), TWO_THIRDS, iters - i)
    {
      var m1 := lo + (hi - lo) / 3.0;
      var m2 := hi - (hi - lo) / 3.0;
      assert m1 == Left(Bracket(lo, hi), TWO_THIRDS) && m2 == Right(Bracket(lo, hi), TWO_THIRDS);
      if Signed(err, mu, m1) < Signed(err, mu, m2) {
        lo := m1;
      } else {
        hi := m2;
      }
    }
    b := Bracket(lo, hi);
    u := 0.5 * (lo + hi);
    e := err(u);
  }

  lemma TwoThirds()
    ensures 0.5 < TWO_THIRDS == 2.0 / 3.0 < 1.0
  {}

  /** Both searches, on an error with one peak (mu > 0) or one valley in the bracket: the returned point is within half
      the shrunken width of it, and comes with its error. */
  method RefineExtremum(err: real -> real, lo: real, hi: real, mu: int, g: real, iters: nat, golden: bool,
          ghost top: real)
    returns (u: real, e: real)
    requires lo < hi && g * g + g == 1.0 && g > 0.0
    requires if mu > 0 then Peak(err, Bracket(lo, hi), top) else Valley(err, Bracket(lo, hi), top)
    ensures e == err(u)
    ensures var half := HalfWidth(if golden then g else 2.0 / 3.0, iters, hi - lo); -half <= u - top <= half
  {
    hide *;
    ghost var b;
    PeakOrValley(err, mu, Bracket(lo, hi), top);
    HalfWidthIs(g, iters, hi - lo);
    HalfWidthIs(TWO_THIRDS, iters, hi - lo);
    TwoThirds();
    GoldenRange(g);
    if golden {
      u, e, b := GoldenSection(err, lo, hi, mu, g, iters);
      MidpointIsClose(err, mu, Bracket(lo, hi), g, iters, top, b, Width(g, iters, hi - lo) / 2.0);
    } else {
      u, e, b := Ternary(err, lo, hi, mu, iters);
      MidpointIsClose(err, mu, Bracket(lo, hi), TWO_THIRDS, iters, top, b, Width(TWO_THIRDS, iters, hi - lo) / 2.0);
    }
  }
}
