/**
 Sums, permutations and error bounds of the sorting network: an eps-close comparator costs at most eps a stage.
 */
module BitonicError {
  import opened Reals
  import opened Bits
  import opened BitonicNetwork
  import opened BitonicSorting

  function Sum(v: Vec): real {
    if v == [] then 0.0 else v[0] + Sum(v[1..])
  }

  lemma {:induction false} SumUpdate(v: Vec, i: nat, w: real)
    requires i < |v|
    ensures Sum(v[i := w]) == Sum(v) - v[i] + w
  {
    if i > 0 {
      assert v[i := w][1..] == v[1..][i - 1 := w];
      SumUpdate(v[1..], i - 1, w);
    } else {
      assert v[0 := w][1..] == v[1..];
    }
  }

  // ----- a stage as a sequence of pair updates -----

  /** x with the pairs whose lower slot is below c already replaced by z. */
  function Mixed(x: Vec, z: Vec, e: nat, c: nat): (r: Vec)
    requires |x| == |z|
    ensures |r| == |x|
  {
    seq(|x|, i requires 0 <= i < |x| => if PairLow(i, e) < c then z[i] else x[i])
  }

  lemma MixedStep(x: Vec, z: Vec, e: nat, c: nat, m: nat, p: nat)
    requires |x| == |z| == Pow2(m) && e < m && c < |x| && p == c + Pow2(e)
    ensures !Low(c, e) ==> Mixed(x, z, e, c + 1) == Mixed(x, z, e, c)
    ensures Low(c, e) ==> (
      p < |x| && Mixed(x, z, e, c)[c] == x[c] && Mixed(x, z, e, c)[p] == x[p] &&
      Mixed(x, z, e, c + 1) == Mixed(x, z, e, c)[c := z[c]][p := z[p]])
  {
    forall i: nat | i < |x|
      ensures PairLow(i, e) == c ==> Low(c, e) && (i == c || i == p)
    {
      PartnerFacts(i, e);
    }
    PairSlots(c, e, m);
    PartnerFacts(c, e);
  }

  /** Both slots of every pair move together. */
  ghost predicate PairsKeepSum(x: Vec, z: Vec, e: nat) {
    |x| == |z| && forall i: nat {:trigger Low(i, e)} ::
      Low(i, e) && i + Pow2(e) < |x| ==> z[i] + z[i + Pow2(e)] == x[i] + x[i + Pow2(e)]
  }

  ghost predicate PairsPermute(x: Vec, z: Vec, e: nat) {
    |x| == |z| && forall i: nat {:trigger Low(i, e)} ::
      Low(i, e) && i + Pow2(e) < |x| ==> multiset{z[i], z[i + Pow2(e)]} == multiset{x[i], x[i + Pow2(e)]}
  }

  lemma {:induction false} MixedKeepsSum(x: Vec, z: Vec, e: nat, c: nat, m: nat)
    requires |x| == Pow2(m) && e < m && c <= |x| && PairsKeepSum(x, z, e)
    ensures Sum(Mixed(x, z, e, c)) == Sum(x)
    decreases c
  {
    if c == 0 {
      assert Mixed(x, z, e, 0) == x;
    } else {
      var b, p := c - 1, c - 1 + Pow2(e);
      MixedKeepsSum(x, z, e, b, m);
      MixedStep(x, z, e, b, m, p);
      if Low(b, e) {
        var v := Mixed(x, z, e, b);
        SumUpdate(v, b, z[b]);
        SumUpdate(v[b := z[b]], p, z[p]);
      }
    }
  }

  lemma {:induction false} MixedPermutes(x: Vec, z: Vec, e: nat, c: nat, m: nat)
    requires |x| == Pow2(m) && e < m && c <= |x| && PairsPermute(x, z, e)
    ensures multiset(Mixed(x, z, e, c)) == multiset(x)
    decreases c
  {
    if c == 0 {
      assert Mixed(x, z, e, 0) == x;
    } else {
      var b, p := c - 1, c - 1 + Pow2(e);
      MixedPermutes(x, z, e, b, m);
      MixedStep(x, z, e, b, m, p);
      if Low(b, e) {
        TwoUpdates(Mixed(x, z, e, b), b, p, z[b], z[p]);
      }
    }
  }

  lemma TwoUpdates(v: Vec, i: nat, j: nat, a: real, b: real)
    requires i < |v| && j < |v| && i != j && multiset{a, b} == multiset{v[i], v[j]}
    ensures multiset(v[i := a][j := b]) == multiset(v)
  {
    assert (a == v[i] && b == v[j]) || (a == v[j] && b == v[i]) by {
      assert a in multiset{v[i], v[j]} && b in multiset{v[i], v[j]};
      if a == b { assert multiset{a, b}[a] == 2; }
    }
    assert v[i := a][j := b] == if a == v[i] && b == v[j] then v else v[i := v[j]][j := v[i]];
  }

  lemma MixedAll(x: Vec, z: Vec, e: nat, m: nat)
    requires |x| == |z| == Pow2(m) && e < m
    ensures Mixed(x, z, e, |x|) == z
  {
    forall i: nat | i < |x|
      ensures PairLow(i, e) < |x|
    {
      PairSlots(i, e, m);
    }
  }

  // ----- one stage -----

  /** The two slots of a pair share the direction bit. */
  lemma PairDirection(i: nat, f: nat, e: nat)
    requires e < f && Low(i, e)
    ensures Low(i + Pow2(e), f) == Low(i, f) && !Low(i + Pow2(e), e)
    ensures PairLow(i, e) == i && PairLow(i + Pow2(e), e) == i
  {
    PartnerFacts(i, e);
    SameBlockUp(i, i + Pow2(e), e + 1, f);
  }

  lemma StagePairSum(x: Vec, l: Layer, m: nat, c: Comparator, s: nat, i: nat, p: nat)
    requires |x| == Pow2(m) && l.e < l.f <= m && Low(i, l.e) && p == i + Pow2(l.e) < |x|
    ensures var z := PairStage(x, l, m, c, s); z[i] + z[p] == x[i] + x[p]
  {
    PairDirection(i, l.f, l.e);
    var d := x[p] - x[i];
    var td := Moved(c(s, i, d), d);
    PairStageEntry(x, l, m, c, s, i, i, p, d, td);
    PairStageEntry(x, l, m, c, s, p, i, p, d, td);
  }

  lemma StagePairs(x: Vec, l: Layer, m: nat, c: Comparator, s: nat, z: Vec)
    requires |x| == Pow2(m) && l.e < l.f <= m && z == PairStage(x, l, m, c, s)
    ensures PairsKeepSum(x, z, l.e)
  {
    hide PairStage;
    forall i: nat | Low(i, l.e) && i + Pow2(l.e) < |x|
      ensures z[i] + z[i + Pow2(l.e)] == x[i] + x[i + Pow2(l.e)]
    {
      StagePairSum(x, l, m, c, s, i, i + Pow2(l.e));
    }
  }

  /** Any answers at all: a stage conserves the sum of the entries. */
  lemma StageKeepsSum(x: Vec, l: Layer, m: nat, c: Comparator, s: nat)
    requires |x| == Pow2(m) && l.e < l.f <= m
    ensures Sum(PairStage(x, l, m, c, s)) == Sum(x)
  {
    hide *;
    var z := PairStage(x, l, m, c, s);
    StagePairs(x, l, m, c, s, z);
    MixedKeepsSum(x, z, l.e, |x|, m);
    MixedAll(x, z, l.e, m);
  }

  lemma ExchangePermutes(x: Vec, f: nat, e: nat, m: nat)
    requires |x| == Pow2(m) && e < f && e < m
    ensures multiset(CompareExchange(x, f, e, m)) == multiset(x)
  {
    var z := CompareExchange(x, f, e, m);
    forall i: nat | Low(i, e) && i + Pow2(e) < |x|
      ensures multiset{z[i], z[i + Pow2(e)]} == multiset{x[i], x[i + Pow2(e)]}
    {
      PairDirection(i, f, e);
      PartnerFacts(i, e);
    }
    MixedPermutes(x, z, e, |x|, m);
    MixedAll(x, z, e, m);
  }

  // ----- whole runs -----

  lemma {:induction false} RunKeepsSum(x: Vec, layers: seq<Layer>, m: nat, c: Comparator, s: nat)
    requires |x| == Pow2(m) && Fits(layers, m)
    ensures Sum(Run(x, layers, m, c, s)) == Sum(x)
    decreases |layers|
  {
    if layers != [] {
      StageKeepsSum(x, layers[0], m, c, s);
      RunKeepsSum(PairStage(x, layers[0], m, c, s), layers[1..], m, c, s + 1);
    }
  }

  lemma {:induction false} ExactRunPermutes(x: Vec, layers: seq<Layer>, m: nat, s: nat)
    requires |x| == Pow2(m) && Fits(layers, m)
    ensures multiset(Run(x, layers, m, Exact(), s)) == multiset(x)
    decreases |layers|
  {
    if layers != [] {
      var l := layers[0];
      PairStageIsExchange(x, l, m, s);
      ExchangePermutes(x, l.f, l.e, m);
      ExactRunPermutes(CompareExchange(x, l.f, l.e, m), layers[1..], m, s + 1);
    }
  }

  /** With an exact comparator the network returns the ascending permutation of any input of length 2^m. */
  lemma ExactNetworkSorts(x: Vec, m: nat)
    requires |x| == Pow2(m) && Fits(Layers(1, m), m)
    ensures var z := Run(x, Layers(1, m), m, Exact(), 0); Ascending(z) && multiset(z) == multiset(x)
  {
    RunIsPhases(x, 1, m, 0);
    NetworkAscends(x, m);
    ExactRunPermutes(x, Layers(1, m), m, 0);
  }

  /** `_BitonicSort.forward` with an exact comparator, for any refresh interval, sorts. */
  method SortExactly(x: Vec, ghost m: nat, bootEvery: nat) returns (z: Vec)
    requires |x| == Pow2(m) && bootEvery >= 1
    ensures Ascending(z) && multiset(z) == multiset(x)
  {
    z := Forward(x, m, bootEvery, Exact());
    ExactNetworkSorts(x, m);
  }

  lemma SmallestFirst(a: Vec, b: Vec)
    requires Ascending(a) && Ascending(b) && multiset(a) == multiset(b) && a != [] && b != []
    ensures a[0] == b[0]
  {
    assert a[0] in multiset(b) && b[0] in multiset(a);
    var i :| 0 <= i < |a| && a[i] == b[0];
    var j :| 0 <= j < |b| && b[j] == a[0];
  }

  /** Sorting has one answer. */
  lemma {:induction false} AscendingUnique(a: Vec, b: Vec)
    requires Ascending(a) && Ascending(b) && multiset(a) == multiset(b)
    ensures a == b
    decreases |a|
  {
    assert |a| == |multiset(a)| == |multiset(b)| == |b|;
    if a != [] {
      SmallestFirst(a, b);
      assert a == [a[0]] + a[1..] && b == [b[0]] + b[1..];
      assert multiset(a[1..]) == multiset(a) - multiset{a[0]} && multiset(b[1..]) == multiset(b) - multiset{b[0]};
      AscendingUnique(a[1..], b[1..]);
    }
  }

  // ----- the inexact network -----

  /** On differences in [-1, 1] the comparator's error times the difference is at most eps. */
  ghost predicate Tolerant(c: Comparator, eps: real) {
    forall s: nat, i: nat, d: real :: -1.0 <= d <= 1.0 ==> Abs(c(s, i, d) - Step(d)) * Abs(d) <= eps
  }

  predicate Near(y: Vec, z: Vec, delta: real) {
    |y| == |z| && forall i :: 0 <= i < |y| ==> -delta <= y[i] - z[i] <= delta
  }

  predicate Within(x: Vec, lo: real, hi: real) {
    forall i :: 0 <= i < |x| ==> lo <= x[i] <= hi
  }

  lemma AnswerError(t: real, d: real, eps: real)
    requires Abs(t - Step(d)) * Abs(d) <= eps
    ensures -eps <= Moved(t, d) - Moved(Step(d), d) <= eps
  {
    assert t * d - Step(d) * d == (t - Step(d)) * d;
    var u := t - Step(d);
    assert Abs(u) * Abs(d) == Abs(u * d);
  }

  /** Compare-exchange is nonexpansive, and an eps-close answer adds at most eps. */
  lemma PairError(asc: bool, low: bool, a: real, b: real, a2: real, b2: real, d: real, td: real, delta: real, eps: real)
    requires -delta <= a - a2 <= delta && -delta <= b - b2 <= delta
    requires d == b - a && -eps <= td - Moved(Step(d), d) <= eps
    ensures var r := PairOutput(asc, low, a, b, td); var r2 := if asc == low then Min(a2, b2) else Max(a2, b2);
      -(delta + eps) <= r - r2 <= delta + eps
  {
    ExactPair(asc, low, a, b, d, Moved(Step(d), d));
  }

  lemma ExchangeEntry(z: Vec, l: Layer, m: nat, i: nat, lo: nat, hi: nat)
    requires |z| == Pow2(m) && l.e < l.f <= m && i < |z| && lo == PairLow(i, l.e) && hi == lo + Pow2(l.e) < |z|
    ensures CompareExchange(z, l.f, l.e, m)[i] ==
      if Low(i, l.f) == Low(i, l.e) then Min(z[lo], z[hi]) else Max(z[lo], z[hi])
  {
    PairSlots(i, l.e, m);
    PartnerFacts(i, l.e);
  }

  /** The comparator's answer for one pair, times its difference, is within eps of the exact one. */
  lemma AnswerFor(c: Comparator, s: nat, lo: nat, d: real, eps: real)
    requires Tolerant(c, eps) && -1.0 <= d <= 1.0
    ensures -eps <= Moved(c(s, lo, d), d) - Moved(Step(d), d) <= eps
  {
    AnswerError(c(s, lo, d), d, eps);
  }

  lemma StageErrorAt(y: Vec, z: Vec, l: Layer, m: nat, c: Comparator, s: nat, delta: real, eps: real, i: nat, lo: nat,
          hi: nat, d: real, td: real)
    requires |y| == |z| == Pow2(m) && l.e < l.f <= m && i < |y|
    requires lo == PairLow(i, l.e) && hi == lo + Pow2(l.e) < |y| && d == y[hi] - y[lo] && td == Moved(c(s, lo, d), d)
    requires -delta <= y[lo] - z[lo] <= delta && -delta <= y[hi] - z[hi] <= delta
    requires -eps <= td - Moved(Step(d), d) <= eps
    ensures -(delta + eps) <= PairStage(y, l, m, c, s)[i] - CompareExchange(z, l.f, l.e, m)[i] <= delta + eps
  {
    PairStageEntry(y, l, m, c, s, i, lo, hi, d, td);
    PairError(Low(i, l.f), Low(i, l.e), y[lo], y[hi], z[lo], z[hi], d, td, delta, eps);
    ExchangeEntry(z, l, m, i, lo, hi);
  }

  lemma ExchangeWithin(z: Vec, f: nat, e: nat, m: nat, lo: real, hi: real)
    requires |z| == Pow2(m) && e < m && Within(z, lo, hi)
    ensures Within(CompareExchange(z, f, e, m), lo, hi)
  {
    forall i: nat | i < |z|
      ensures lo <= CompareExchange(z, f, e, m)[i] <= hi
    {
      PartnerInRange(i, e, m);
    }
  }

  /** One stage: the exact and the inexact outputs drift apart by at most eps more. */
  lemma StageError(y: Vec, z: Vec, l: Layer, m: nat, c: Comparator, s: nat, delta: real, eps: real, lo: real, hi: real)
    requires |y| == Pow2(m) && l.e < l.f <= m && Near(y, z, delta) && Tolerant(c, eps)
    requires Within(z, lo, hi) && hi - lo + 2.0 * delta <= 1.0
    ensures Near(PairStage(y, l, m, c, s), CompareExchange(z, l.f, l.e, m), delta + eps)
  {
    var y2, z2 := PairStage(y, l, m, c, s), CompareExchange(z, l.f, l.e, m);
    forall i: nat | i < |y|
      ensures -(delta + eps) <= y2[i] - z2[i] <= delta + eps
    {
      PairSlots(i, l.e, m);
      var lo, hi := PairLow(i, l.e), PairLow(i, l.e) + Pow2(l.e);
      var d := y[hi] - y[lo];
      AnswerFor(c, s, lo, d, eps);
      StageErrorAt(y, z, l, m, c, s, delta, eps, i, lo, hi, d, Moved(c(s, lo, d), d));
    }
  }

  /** n times eps, added up. */
  function Drift(n: nat, eps: real): (r: real)
    ensures eps >= 0.0 ==> r >= 0.0
    ensures r == n as real * eps
  {
    if n == 0 then 0.0 else eps + Drift(n - 1, eps)
  }

  lemma {:induction false} RunError(y: Vec, z: Vec, layers: seq<Layer>, m: nat, c: Comparator, s: nat,
                                    lo: real, hi: real, delta: real, eps: real, n: nat)
    requires |y| == Pow2(m) && Fits(layers, m) && Tolerant(c, eps) && eps >= 0.0 && n == |layers|
    requires Near(y, z, delta) && Within(z, lo, hi)
    requires hi - lo + 2.0 * (delta + Drift(n, eps)) <= 1.0
    ensures Near(Run(y, layers, m, c, s), Run(z, layers, m, Exact(), s), delta + Drift(n, eps))
    decreases n
  {
    if n > 0 {
      var l := layers[0];
      StageError(y, z, l, m, c, s, delta, eps, lo, hi);
      PairStageIsExchange(z, l, m, s);
      ExchangeWithin(z, l.f, l.e, m, lo, hi);
      RunError(PairStage(y, l, m, c, s), CompareExchange(z, l.f, l.e, m), layers[1..], m, c, s + 1, lo, hi,
        delta + eps, eps, n - 1);
    }
  }

  /** The inexact network on 2^m entries conserves the sum and ends within m(m+1)/2 * eps of the true sort. */
  lemma InexactNetworkError(x: Vec, m: nat, c: Comparator, eps: real, lo: real, hi: real, sorted: Vec)
    requires |x| == Pow2(m) && Within(x, lo, hi) && eps >= 0.0 && Tolerant(c, eps)
    requires hi - lo + 2.0 * (NumStages(m) as real * eps) <= 1.0
    requires Ascending(sorted) && multiset(sorted) == multiset(x)
    ensures Fits(Layers(1, m), m)
    ensures var r := Run(x, Layers(1, m), m, c, 0);
      Sum(r) == Sum(x) && Near(r, sorted, NumStages(m) as real * eps)
  {
    LoopsBuildLayers(m);
    RunKeepsSum(x, Layers(1, m), m, c, 0);
    SortedIsExactRun(x, m, sorted);
    ErrorOfRun(x, m, c, eps, lo, hi, NumStages(m));
  }

  lemma SortedIsExactRun(x: Vec, m: nat, sorted: Vec)
    requires |x| == Pow2(m) && Fits(Layers(1, m), m) && Ascending(sorted) && multiset(sorted) == multiset(x)
    ensures sorted == Run(x, Layers(1, m), m, Exact(), 0)
  {
    ExactNetworkSorts(x, m);
    AscendingUnique(sorted, Run(x, Layers(1, m), m, Exact(), 0));
  }

  lemma ErrorOfRun(x: Vec, m: nat, c: Comparator, eps: real, lo: real, hi: real, n: nat)
    requires |x| == Pow2(m) && Within(x, lo, hi) && eps >= 0.0 && Tolerant(c, eps)
    requires Fits(Layers(1, m), m) && n == |Layers(1, m)| && hi - lo + 2.0 * Drift(n, eps) <= 1.0
    ensures Near(Run(x, Layers(1, m), m, c, 0), Run(x, Layers(1, m), m, Exact(), 0), Drift(n, eps))
  {
    RunError(x, x, Layers(1, m), m, c, 0, lo, hi, 0.0, eps, n);
  }
}
