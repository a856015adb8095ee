/**
 Coefficient lists as polynomials, and how flat a function f with f(1) = 1 is at 1: the order of the zero of 1 - f. The
 order is unique, and the orders of composed functions multiply.
 */
module PolynomialZeros {
  import opened Reals
  import opened RefinementPoly

  // ----- the ring of coefficient lists -----

  /** The coefficient of x^i. */
  function Co(p: seq<real>, i: int): real { if 0 <= i < |p| then p[i] else 0.0 }

  /** Multiplication by x. */
  function Rise(p: seq<real>): seq<real> { [0.0] + p }

  function Times(p: seq<real>, k: real): (r: seq<real>)
    ensures |r| == |p| && forall i :: 0 <= i < |p| ==> r[i] == p[i] * k
  {
    if p == [] then [] else [p[0] * k] + Times(p[1..], k)
  }

  function Mul(a: seq<real>, b: seq<real>): seq<real> {
    if a == [] then [] else Plus(Times(b, a[0]), Rise(Mul(a[1..], b)))
  }

  /** a(b(x)), by Horner's rule. */
  function Compose(a: seq<real>, b: seq<real>): seq<real> {
    if a == [] then [] else Plus([a[0]], Mul(b, Compose(a[1..], b)))
  }

  function PowerOf(a: seq<real>, n: nat): seq<real> { if n == 0 then [1.0] else Mul(a, PowerOf(a, n - 1)) }

  /** Multiplication by x^k. */
  function Raise(p: seq<real>, k: nat): seq<real> { if k == 0 then p else Rise(Raise(p, k - 1)) }

  lemma AddProducts(a: real, b: real, x: real, u: real, v: real)
    ensures (a + b) + x * (u + v) == (a + x * u) + (b + x * v)
  {}

  lemma Factored(a: real, k: real, x: real, u: real)
    ensures a * k + x * (u * k) == (a + x * u) * k
  {}

  lemma EvalFirst(a: seq<real>, x: real)
    requires a != []
    ensures Eval(a, x) == a[0] + x * Eval(a[1..], x)
  {}

  lemma EvalCons(a: real, p: seq<real>, x: real)
    ensures Eval([a] + p, x) == a + x * Eval(p, x)
  {
    assert ([a] + p)[1..] == p;
  }

  lemma {:induction false} EvalPlus(a: seq<real>, b: seq<real>, x: real)
    ensures Eval(Plus(a, b), x) == Eval(a, x) + Eval(b, x)
    decreases |a|
  {
    if a != [] && b != [] {
      EvalPlus(a[1..], b[1..], x);
      EvalCons(a[0] + b[0], Plus(a[1..], b[1..]), x);
      AddProducts(a[0], b[0], x, Eval(a[1..], x), Eval(b[1..], x));
    }
  }

  lemma {:induction false} EvalTimes(p: seq<real>, k: real, x: real)
    ensures Eval(Times(p, k), x) == Eval(p, x) * k
    decreases |p|
  {
    if p != [] {
      EvalTimes(p[1..], k, x);
      EvalCons(p[0] * k, Times(p[1..], k), x);
      Factored(p[0], k, x, Eval(p[1..], x));
    }
  }

  lemma EvalRise(p: seq<real>, x: real)
    ensures Eval(Rise(p), x) == x * Eval(p, x)
  {
    EvalCons(0.0, p, x);
  }

  lemma {:induction false} EvalMul(a: seq<real>, b: seq<real>, x: real)
    ensures Eval(Mul(a, b), x) == Eval(a, x) * Eval(b, x)
    decreases |a|
  {
    hide *;
    if a == [] {
      MulNothing(b, x);
    } else {
      MulFirst(a, b);
      EvalMul(a[1..], b, x);
      EvalTimes(b, a[0], x);
      EvalRise(Mul(a[1..], b), x);
      EvalPlus(Times(b, a[0]), Rise(Mul(a[1..], b)), x);
      ProductStep(a[0], x, Eval(a[1..], x), Eval(b, x));
      EvalFirst(a, x);
    }
  }

  lemma MulNothing(b: seq<real>, x: real)
    ensures Eval(Mul([], b), x) == 0.0 == Eval([], x) * Eval(b, x)
  {}

  lemma MulFirst(a: seq<real>, b: seq<real>)
    requires a != []
    ensures Mul(a, b) == Plus(Times(b, a[0]), Rise(Mul(a[1..], b)))
  {}

  lemma ProductStep(a: real, x: real, u: real, v: real)
    ensures v * a + x * (u * v) == (a + x * u) * v
  {}

  lemma {:induction false} EvalCompose(a: seq<real>, b: seq<real>, x: real)
    ensures Eval(Compose(a, b), x) == Eval(a, Eval(b, x))
    decreases |a|
  {
    hide Plus, Mul;
    if a != [] {
      EvalCompose(a[1..], b, x);
      EvalMul(b, Compose(a[1..], b), x);
      EvalPlus([a[0]], Mul(b, Compose(a[1..], b)), x);
      EvalCons(a[0], [], x);
      assert [a[0]] + [] == [a[0]];
    }
  }

  lemma {:induction false} EvalPowerOf(a: seq<real>, n: nat, x: real)
    ensures Eval(PowerOf(a, n), x) == Power(Eval(a, x), n)
  {
    hide Mul;
    if n == 0 {
      EvalCons(1.0, [], x);
      assert [1.0] + [] == [1.0];
    } else {
      EvalPowerOf(a, n - 1, x);
      EvalMul(a, PowerOf(a, n - 1), x);
    }
  }

  lemma {:induction false} EvalRaise(p: seq<real>, k: nat, x: real)
    ensures Eval(Raise(p, k), x) == Power(x, k) * Eval(p, x)
  {
    hide Rise;
    if k > 0 {
      EvalRaise(p, k - 1, x);
      EvalRise(Raise(p, k - 1), x);
      Regrouped(x, Power(x, k - 1), Eval(p, x));
    }
  }

  lemma Regrouped(x: real, y: real, z: real)
    ensures x * (y * z) == (x * y) * z
  {}

  lemma EvalAtZero(p: seq<real>)
    ensures Eval(p, 0.0) == Co(p, 0)
  {}

  // ----- powers -----

  lemma {:induction false} PowerOfProduct(x: real, y: real, z: real, n: nat)
    requires z == x * y
    ensures Power(z, n) == Power(x, n) * Power(y, n)
  {
    if n > 0 {
      PowerOfProduct(x, y, z, n - 1);
      Crossed(x, y, Power(x, n - 1), Power(y, n - 1));
    }
  }

  lemma Crossed(x: real, y: real, u: real, v: real)
    ensures (x * y) * (u * v) == (x * u) * (y * v)
  {}

  lemma {:induction false} PowerSum(x: real, m: nat, n: nat)
    ensures Power(x, m + n) == Power(x, m) * Power(x, n)
  {
    if m > 0 {
      PowerSum(x, m - 1, n);
      Regrouped(x, Power(x, m - 1), Power(x, n));
    }
  }

  lemma {:induction false} PowerOfPower(x: real, m: nat, n: nat)
    ensures Power(Power(x, m), n) == Power(x, m * n)
  {
    if n > 0 {
      PowerOfPower(x, m, n - 1);
      PowerSum(x, m, m * (n - 1));
      assert m + m * (n - 1) == m * n;
    } else {
      assert m * n == 0;
    }
  }

  lemma {:induction false} PowerNotZero(x: real, n: nat)
    requires x != 0.0
    ensures Power(x, n) != 0.0
  {
    if n > 0 { PowerNotZero(x, n - 1); }
  }

  // ----- a polynomial that is not 0 at 0 is not 0 next to it -----

  lemma {:induction false} Bounded(p: seq<real>) returns (b: real)
    ensures b >= 0.0 && forall x: real :: 0.0 <= x <= 1.0 ==> -b <= Eval(p, x) <= b
    decreases |p|
  {
    if p == [] {
      b := 0.0;
    } else {
      var rest := Bounded(p[1..]);
      b := Abs(p[0]) + rest;
      forall x: real | 0.0 <= x <= 1.0
        ensures -b <= Eval(p, x) <= b
      {
        SmallerProduct(x, Eval(p[1..], x), rest);
      }
    }
  }

  lemma SmallerProduct(x: real, v: real, b: real)
    requires 0.0 <= x <= 1.0 && -b <= v <= b
    ensures -b <= x * v <= b
  {
    if v >= 0.0 {
      Between(x, v);
    } else {
      var w := 0.0 - v;
      Between(x, w);
      Opposite(x, v, w);
      Flipped(x * v, x * w, v, w, b);
    }
  }

  lemma Flipped(p: real, q: real, v: real, w: real, b: real)
    requires p == 0.0 - q && 0.0 <= q <= w && w == 0.0 - v && -b <= v < 0.0
    ensures -b <= p <= b
  {}

  lemma Opposite(x: real, v: real, w: real)
    requires w == 0.0 - v
    ensures x * v == 0.0 - x * w
  {}

  lemma Between(x: real, v: real)
    requires 0.0 <= x <= 1.0 && v >= 0.0
    ensures 0.0 <= x * v <= v
  {
    Monotone(v, x, 1.0);
  }

  lemma Monotone(x: real, u: real, v: real)
    requires x >= 0.0 && u <= v
    ensures x * u <= x * v
  {}

  lemma NotZeroNearby(p: seq<real>) returns (x: real)
    requires Co(p, 0) != 0.0
    ensures 0.0 < x <= 1.0 && Eval(p, x) != 0.0
  {
    var a := Abs(p[0]);
    var b := Bounded(p[1..]);
    x := a / (a + b + 1.0);
    SmallStep(a, b, x);
    var v := Eval(p[1..], x);
    Dominated(p[0], a, x, v, b);
  }

  lemma SmallStep(a: real, b: real, x: real)
    requires a > 0.0 && b >= 0.0 && x == a / (a + b + 1.0)
    ensures 0.0 < x <= 1.0 && x * b < a
  {
    var d := a + b + 1.0;
    assert x * d == a;
    QuotientInside(a, d);
    assert x * b == a - x * (a + 1.0);
    assert x * (a + 1.0) > 0.0;
  }

  lemma QuotientInside(a: real, d: real)
    requires 0.0 < a < d
    ensures 0.0 < a / d < 1.0
  {
    PositiveQuotient(a, d);
    PositiveQuotient(d - a, d);
    assert d / d == 1.0;
    assert a / d + (d - a) / d == d / d;
  }

  lemma PositiveQuotient(a: real, d: real)
    requires a > 0.0 && d > 0.0
    ensures a / d > 0.0
  {}

  lemma Dominated(c: real, a: real, x: real, v: real, b: real)
    requires a == Abs(c) > 0.0 && x > 0.0 && -b <= v <= b && x * b < a
    ensures c + x * v != 0.0
  {
    assert x * v <= x * b;
    assert x * -b <= x * v;
    assert x * -b == -(x * b);
  }

  // ----- the order of the zero of 1 - f at 1 -----

  /** 1 - f(1 + t) is t^k times the polynomial h, which is not 0 at 0. */
  ghost predicate ErrorFactor(f: real -> real, k: nat, h: seq<real>) {
    Co(h, 0) != 0.0 && forall t: real :: ErrorIs(f, k, h, t)
  }

  predicate ErrorIs(f: real -> real, k: nat, h: seq<real>, t: real) {
    1.0 - f(1.0 + t) == Power(t, k) * Eval(h, t)
  }

  lemma IsError(f: real -> real, k: nat, h: seq<real>, t: real)
    requires 1.0 - f(1.0 + t) == Power(t, k) * Eval(h, t)
    ensures ErrorIs(f, k, h, t)
  {}

  ghost predicate ErrorOrder(f: real -> real, k: nat) { exists h :: ErrorFactor(f, k, h) }

  /** A function has at most one order. */
  lemma OrderIsUnique(f: real -> real, k: nat, m: nat)
    requires ErrorOrder(f, k) && ErrorOrder(f, m)
    ensures k == m
  {
    var h :| ErrorFactor(f, k, h);
    var g :| ErrorFactor(f, m, g);
    if k < m {
      NoHigherOrder(f, k, h, m, g);
    } else if m < k {
      NoHigherOrder(f, m, g, k, h);
    }
  }

  lemma NoHigherOrder(f: real -> real, k: nat, h: seq<real>, m: nat, g: seq<real>)
    requires ErrorFactor(f, k, h) && ErrorFactor(f, m, g)
    ensures k >= m
  {
    hide *;
    if k < m {
      LeadingNotZero(f, k, h);
      var q := Times(Raise(g, m - k), -1.0);
      var p := Plus(h, q);
      DifferenceAtZero(h, g, m - k, q);
      var t := NotZeroNearby(p);
      SameError(f, k, h, m, g, t);
      EvalPlus(h, q, t);
      EvalTimes(Raise(g, m - k), -1.0, t);
      EvalRaise(g, m - k, t);
      assert false;
    }
  }

  lemma DifferenceAtZero(h: seq<real>, g: seq<real>, d: nat, q: seq<real>)
    requires Co(h, 0) != 0.0 && d > 0 && q == Times(Raise(g, d), -1.0)
    ensures Co(Plus(h, q), 0) == Co(h, 0)
  {
    assert Raise(g, d)[0] == 0.0;
    assert q[0] == 0.0;
  }

  lemma LeadingNotZero(f: real -> real, k: nat, h: seq<real>)
    requires ErrorFactor(f, k, h)
    ensures Co(h, 0) != 0.0
  {}

  lemma ErrorAt(f: real -> real, k: nat, h: seq<real>, t: real)
    requires ErrorFactor(f, k, h)
    ensures 1.0 - f(1.0 + t) == Power(t, k) * Eval(h, t)
  {
    hide Power, Eval;
    assert ErrorIs(f, k, h, t);
  }

  lemma SameError(f: real -> real, k: nat, h: seq<real>, m: nat, g: seq<real>, t: real)
    requires ErrorFactor(f, k, h) && ErrorFactor(f, m, g) && k < m && t > 0.0
    ensures Eval(h, t) == Power(t, m - k) * Eval(g, t)
  {
    hide *;
    PowerSum(t, k, m - k);
    PowerNotZero(t, k);
    ErrorAt(f, k, h, t);
    ErrorAt(f, m, g, t);
    Regrouped(Power(t, k), Power(t, m - k), Eval(g, t));
    Cancelled(Power(t, k), Eval(h, t), Power(t, m - k) * Eval(g, t));
  }

  lemma Cancelled(a: real, x: real, y: real)
    requires a != 0.0 && a * x == a * y
    ensures x == y
  {
    assert a * (x - y) == 0.0;
  }

  /** The identity has order 1. */
  lemma IdentityOrder(f: real -> real)
    requires forall x: real :: f(x) == x
    ensures ErrorOrder(f, 1)
  {
    var h := [-1.0];
    forall t: real
      ensures ErrorIs(f, 1, h, t)
    {
      assert [-1.0] + [] == [-1.0];
      EvalCons(-1.0, [], t);
      assert Power(t, 1) == t * Power(t, 0);
    }
    assert ErrorFactor(f, 1, h);
  }

  /** Orders of composed functions multiply. */
  lemma ComposedOrder(f: real -> real, g: real -> real, gf: real -> real, a: nat, b: nat)
    requires ErrorOrder(f, a) && ErrorOrder(g, b) && a >= 1 && forall x: real :: gf(x) == g(f(x))
    ensures ErrorOrder(gf, a * b)
  {
    var h :| ErrorFactor(f, a, h);
    var k :| ErrorFactor(g, b, k);
    hide *;
    LeadingNotZero(f, a, h);
    LeadingNotZero(g, b, k);
    var minus := Times(h, -1.0);
    var s := Raise(minus, a);
    var q := Mul(PowerOf(minus, b), Compose(k, s));
    ComposedAtZero(h, k, a, b, minus, s, q);
    forall t: real
      ensures ErrorIs(gf, a * b, q, t)
    {
      ComposedError(f, g, gf, h, k, a, b, t);
    }
    HasOrder(gf, a * b, q);
  }

  lemma HasOrder(f: real -> real, k: nat, h: seq<real>)
    requires Co(h, 0) != 0.0 && forall t: real :: ErrorIs(f, k, h, t)
    ensures ErrorOrder(f, k)
  {
    assert ErrorFactor(f, k, h);
  }

  lemma ComposedAtZero(h: seq<real>, k: seq<real>, a: nat, b: nat, minus: seq<real>, s: seq<real>, q: seq<real>)
    requires Co(h, 0) != 0.0 && Co(k, 0) != 0.0 && a >= 1 && minus == Times(h, -1.0) && s == Raise(minus, a)
    requires q == Mul(PowerOf(minus, b), Compose(k, s))
    ensures Co(q, 0) != 0.0
  {
    EvalAtZero(q);
    EvalMul(PowerOf(minus, b), Compose(k, s), 0.0);
    EvalPowerOf(minus, b, 0.0);
    EvalAtZero(minus);
    PowerNotZero(Co(minus, 0), b);
    EvalCompose(k, s, 0.0);
    EvalAtZero(s);
    assert Co(s, 0) == 0.0;
    EvalAtZero(k);
  }

  lemma ComposedError(f: real -> real, g: real -> real, gf: real -> real, h: seq<real>, k: seq<real>, a: nat, b: nat,
          t: real)
    requires ErrorFactor(f, a, h) && ErrorFactor(g, b, k) && gf(1.0 + t) == g(f(1.0 + t))
    ensures var minus := Times(h, -1.0); var s := Raise(minus, a);
      ErrorIs(gf, a * b, Mul(PowerOf(minus, b), Compose(k, s)), t)
  {
    hide *;
    var minus := Times(h, -1.0);
    var s := Raise(minus, a);
    var v, u := Eval(s, t), Eval(minus, t);
    EvalTimes(h, -1.0, t);
    EvalRaise(minus, a, t);
    StepAway(f, a, h, t, u, v);
    ErrorAt(g, b, k, v);
    PowerOfStep(t, u, v, a, b);
    EvalMul(PowerOf(minus, b), Compose(k, s), t);
    EvalPowerOf(minus, b, t);
    EvalCompose(k, s, t);
    Closing(1.0 - gf(1.0 + t), Power(v, b), Eval(k, v), Power(t, a * b), Power(u, b),
      Eval(Mul(PowerOf(minus, b), Compose(k, s)), t));
    IsError(gf, a * b, Mul(PowerOf(minus, b), Compose(k, s)), t);
  }

  lemma PowerOfStep(t: real, u: real, v: real, a: nat, b: nat)
    requires v == Power(t, a) * u
    ensures Power(v, b) == Power(t, a * b) * Power(u, b)
  {
    hide *;
    PowerOfProduct(Power(t, a), u, v, b);
    PowerOfPower(t, a, b);
  }

  lemma Closing(e: real, pv: real, kv: real, pt: real, pu: real, r: real)
    requires e == pv * kv && pv == pt * pu && r == pu * kv
    ensures e == pt * r
  {
    Regrouped(pt, pu, kv);
  }

  lemma StepAway(f: real -> real, a: nat, h: seq<real>, t: real, u: real, v: real)
    requires ErrorFactor(f, a, h) && u == Eval(h, t) * -1.0 && v == Power(t, a) * u
    ensures f(1.0 + t) == 1.0 + v
  {
    hide *;
    ErrorAt(f, a, h, t);
    assert v == Power(t, a) * (Eval(h, t) * -1.0);
    Regrouped(Power(t, a), Eval(h, t), -1.0);
  }
}
