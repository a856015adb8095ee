/**
 The degree-schedule enumeration and the cached minimal-depth search of `sign_minimax` in `remez_utils.py`. Fitting a
 stage and measuring a composite are uninterpreted.
 */
module SignSearch {
  import opened Wrappers
  import opened Bits
  import opened Sorting

  // ----- degrees and depths -----

  /** The supported depths are 3 to 8; the degree of a depth is the largest its evaluation tree fits. */
  function DegreeOf(depth: nat): nat { Pow2(depth) - 1 }

  predicate Supported(depth: int) { 3 <= depth <= 8 }

  /** `_bucket_depth`: the depth of the smallest supported degree that is at least `degree`. */
  function BucketDepthFrom(degree: nat, depth: nat): Option<nat>
    decreases 9 - depth
  {
    if depth > 8 then None
    else if degree <= DegreeOf(depth) then Some(depth)
    else BucketDepthFrom(degree, depth + 1)
  }

  function BucketDepth(degree: nat): Option<nat> { BucketDepthFrom(degree, 3) }

  /** A bucket is charged the least supported depth d with degree + 1 <= 2^d. */
  lemma BucketIsLeast(degree: nat, d: nat)
    requires BucketDepth(degree) == Some(d)
    ensures Supported(d) && degree < Pow2(d) && (d > 3 ==> Pow2(d - 1) <= degree)
  {
    var a := [Pow2(3), Pow2(4), Pow2(5), Pow2(6), Pow2(7), Pow2(8)];
    assert Pow2(2) == 4 && a == [8, 16, 32, 64, 128, 256];
  }

  // ----- enumerate_degree_lists -----

  /** Parts as depths; a degree list is the map of its depths to degrees. */
  function Degrees(parts: seq<nat>): (r: seq<nat>)
    ensures |r| == |parts|
  {
    seq(|parts|, i requires 0 <= i < |parts| => DegreeOf(parts[i]))
  }

  function Total(parts: seq<nat>): nat {
    if parts == [] then 0 else parts[0] + Total(parts[1..])
  }

  function PrependAll(part: nat, tails: seq<seq<nat>>): (r: seq<seq<nat>>)
    ensures |r| == |tails|
  {
    seq(|tails|, i requires 0 <= i < |tails| => [part] + tails[i])
  }

  /** The generator: all non-decreasing lists of supported depths, at least minPart, that sum to `total`. */
  function Enumerate(total: int, minPart: nat): seq<seq<nat>>
    decreases if total < 0 then 0 else total, 10
  {
    if total == 0 then [[]] else FromPart(3, total, minPart)
  }

  function FromPart(part: nat, total: int, minPart: nat): seq<seq<nat>>
    requires part >= 3
    decreases if total < 0 then 0 else total, if part > 9 then 0 else 9 - part
  {
    if part > 8 then []
    else if part < minPart then FromPart(part + 1, total, minPart)
    else if part > total then []
    else PrependAll(part, Enumerate(total - part, part)) + FromPart(part + 1, total, minPart)
  }

  /** Supported depths, non-decreasing, at least minPart. */
  predicate Schedule(parts: seq<nat>, minPart: nat) {
    (forall i :: 0 <= i < |parts| ==> Supported(parts[i]) && parts[i] >= minPart) &&
    forall i, j :: 0 <= i < j < |parts| ==> parts[i] <= parts[j]
  }

  lemma ScheduleTail(parts: seq<nat>, minPart: nat)
    requires parts != []
    ensures Schedule(parts, minPart) <==>
      Supported(parts[0]) && parts[0] >= minPart && Schedule(parts[1..], parts[0])
  {
    if Supported(parts[0]) && parts[0] >= minPart && Schedule(parts[1..], parts[0]) {
      forall i | 0 <= i < |parts|
        ensures Supported(parts[i]) && parts[i] >= parts[0]
      {
        if i > 0 { assert parts[i] == parts[1..][i - 1]; }
      }
      forall i, j | 0 <= i < j < |parts|
        ensures parts[i] <= parts[j]
      {
        if i > 0 { assert parts[i] == parts[1..][i - 1] && parts[j] == parts[1..][j - 1]; }
      }
    }
  }

  lemma InPrependAll(part: nat, tails: seq<seq<nat>>, l: seq<nat>)
    ensures l in PrependAll(part, tails) <==> l != [] && l[0] == part && l[1..] in tails
  {
    var r := PrependAll(part, tails);
    if l in r {
      var i :| 0 <= i < |r| && r[i] == l;
      assert l[1..] == tails[i];
    }
    if l != [] && l[0] == part && l[1..] in tails {
      var i :| 0 <= i < |tails| && tails[i] == l[1..];
      assert r[i] == [part] + l[1..] == l;
    }
  }

  /** Sound and complete: a list is enumerated iff it is a non-decreasing list of supported depths >= minPart with the
      given total. */
  lemma {:induction false} EnumerateExact(total: int, minPart: nat, l: seq<nat>)
    ensures l in Enumerate(total, minPart) <==> Schedule(l, minPart) && Total(l) == total
    decreases if total < 0 then 0 else total, 10
  {
    if total == 0 {
      if l != [] && Schedule(l, minPart) { assert l[0] >= 3; }
    } else {
      FromPartExact(3, total, minPart, l);
      if l != [] && Schedule(l, minPart) { assert l[0] >= 3; }
    }
  }

  lemma {:induction false} FromPartExact(part: nat, total: int, minPart: nat, l: seq<nat>)
    requires part >= 3 && total != 0
    ensures l in FromPart(part, total, minPart) <==>
      l != [] && l[0] >= part && Schedule(l, minPart) && Total(l) == total
    decreases if total < 0 then 0 else total, if part > 9 then 0 else 9 - part
  {
    if l != [] {
      ScheduleTail(l, minPart);
      TotalNonNegative(l);
    }
    if part > 8 {
      if l != [] && Schedule(l, minPart) { assert Supported(l[0]); }
    } else if part < minPart {
      FromPartExact(part + 1, total, minPart, l);
    } else if part <= total {
      FromPartExact(part + 1, total, minPart, l);
      InPrependAll(part, Enumerate(total - part, part), l);
      if l != [] && l[0] == part {
        EnumerateExact(total - part, part, l[1..]);
      }
    }
  }

  lemma TotalNonNegative(l: seq<nat>)
    requires l != []
    ensures Total(l) >= l[0]
  {}

  predicate NoRepeats<T(==)>(s: seq<T>) {
    forall i, j :: 0 <= i < j < |s| ==> s[i] != s[j]
  }

  lemma {:induction false} FromPartNoRepeats(part: nat, total: int, minPart: nat)
    requires part >= 3 && total != 0
    ensures NoRepeats(FromPart(part, total, minPart))
    decreases if total < 0 then 0 else total, if part > 9 then 0 else 9 - part
  {
    if part <= 8 && part >= minPart && part <= total {
      EnumerateNoRepeats(total - part, part);
      FromPartNoRepeats(part + 1, total, minPart);
      var a, b := PrependAll(part, Enumerate(total - part, part)), FromPart(part + 1, total, minPart);
      assert NoRepeats(a) by {
        var t := Enumerate(total - part, part);
        forall i, j | 0 <= i < j < |a|
          ensures a[i] != a[j]
        {
          assert a[i][1..] == t[i] && a[j][1..] == t[j];
        }
      }
      forall i, j | 0 <= i < |a| && 0 <= j < |b|
        ensures a[i] != b[j]
      {
        assert b[j] in b;
        FromPartExact(part + 1, total, minPart, b[j]);
        assert a[i][0] == part;
      }
    } else if part <= 8 && part < minPart {
      FromPartNoRepeats(part + 1, total, minPart);
    }
  }

  /** No list is enumerated twice. */
  lemma {:induction false} EnumerateNoRepeats(total: int, minPart: nat)
    ensures NoRepeats(Enumerate(total, minPart))
    decreases if total < 0 then 0 else total, 10
  {
    if total != 0 { FromPartNoRepeats(3, total, minPart); }
  }

  // ----- refinement combinations -----

  /** `combinations_with_replacement(orders, n)`. */
  function CombosOf(orders: seq<nat>, n: nat): seq<seq<nat>>
    decreases n, |orders|
  {
    if n == 0 then [[]]
    else if orders == [] then []
    else PrependAll(orders[0], CombosOf(orders, n - 1)) + CombosOf(orders[1..], n)
  }

  /** `_refinement_combos` for the sorted distinct orders: lengths 0 to maxCount. */
  function Combos(orders: seq<nat>, maxCount: nat): seq<seq<nat>> {
    if maxCount == 0 then [[]] else Combos(orders, maxCount - 1) + CombosOf(orders, maxCount)
  }

  predicate Increasing(s: seq<nat>) {
    forall i, j :: 0 <= i < j < |s| ==> s[i] < s[j]
  }

  predicate NonDecreasing(s: seq<nat>) {
    forall i, j :: 0 <= i < j < |s| ==> s[i] <= s[j]
  }

  predicate DrawnFrom(s: seq<nat>, orders: seq<nat>) {
    forall o :: o in s ==> o in orders
  }

  lemma ConsInOrder(o: nat, c: seq<nat>, orders: seq<nat>)
    requires Increasing(orders) && orders != [] && o == orders[0] && c != [] && c[0] == o
    ensures NonDecreasing(c) && DrawnFrom(c, orders) <==> NonDecreasing(c[1..]) && DrawnFrom(c[1..], orders)
  {
    assert c == [o] + c[1..];
    if NonDecreasing(c[1..]) && DrawnFrom(c[1..], orders) {
      forall i, j | 0 <= i < j < |c|
        ensures c[i] <= c[j]
      {
        assert c[j] == c[1..][j - 1] && c[j] in c[1..];
        if i > 0 { assert c[i] == c[1..][i - 1]; }
      }
    }
  }

  lemma SkipFirst(orders: seq<nat>, c: seq<nat>)
    requires Increasing(orders) && orders != [] && c != [] && c[0] != orders[0] && NonDecreasing(c)
    ensures DrawnFrom(c, orders) <==> DrawnFrom(c, orders[1..])
  {
    var rest := orders[1..];
    assert orders == [orders[0]] + rest;
    if DrawnFrom(c, orders) {
      assert c[0] in c && c[0] in rest;
      forall q | q in c
        ensures q in rest
      {
        var i :| 0 <= i < |c| && c[i] == q;
        assert q in orders && q >= c[0] > orders[0];
      }
    }
  }

  predicate ComboOf(orders: seq<nat>, n: nat, c: seq<nat>) {
    |c| == n && NonDecreasing(c) && DrawnFrom(c, orders)
  }

  /** A combination starts with the first order, or does not use it. */
  lemma ComboStep(orders: seq<nat>, n: nat, c: seq<nat>)
    requires Increasing(orders) && orders != [] && n > 0
    ensures ComboOf(orders, n, c) <==>
      (c != [] && c[0] == orders[0] && ComboOf(orders, n - 1, c[1..])) || ComboOf(orders[1..], n, c)
  {
    assert orders == [orders[0]] + orders[1..];
    if c != [] {
      if c[0] == orders[0] {
        ConsInOrder(orders[0], c, orders);
        assert c[0] in c;
      } else if NonDecreasing(c) {
        SkipFirst(orders, c);
      }
    }
  }

  lemma {:induction false} CombosOfExact(orders: seq<nat>, n: nat, c: seq<nat>)
    requires Increasing(orders)
    ensures c in CombosOf(orders, n) <==> ComboOf(orders, n, c)
    decreases n, |orders|
  {
    if n > 0 && orders != [] {
      var less, rest := CombosOf(orders, n - 1), CombosOf(orders[1..], n);
      ComboStep(orders, n, c);
      InPrependAll(orders[0], less, c);
      CombosOfExact(orders[1..], n, c);
      if c != [] { CombosOfExact(orders, n - 1, c[1..]); }
      assert CombosOf(orders, n) == PrependAll(orders[0], less) + rest;
      hide CombosOf, ComboOf, PrependAll;
    } else if n > 0 {
      assert c != [] ==> c[0] in c;
    }
  }

  lemma {:induction false} CombosExact(orders: seq<nat>, maxCount: nat, c: seq<nat>)
    requires Increasing(orders)
    ensures c in Combos(orders, maxCount) <==> |c| <= maxCount && NonDecreasing(c) && DrawnFrom(c, orders)
    decreases maxCount
  {
    if maxCount > 0 {
      CombosExact(orders, maxCount - 1, c);
      CombosOfExact(orders, maxCount, c);
    }
  }

  // ----- fits and measurements -----

  /** What one fitted stage hands on. */
  datatype Record = Record(coeffs: seq<real>, maxError: real, minError: real)

  /** `_fit_stage` on the domain left by the previous stage (None: it raises), and `_measure_bits` of the assembled
      composite (None: minus infinity). */
  datatype Env = Env(fit: (Option<Record>, nat) -> Option<Record>, measure: seq<Record> -> Option<real>)

  const COEFF_LIMIT: real := 1000.0

  predicate BlownUp(r: Record) {
    exists i :: 0 <= i < |r.coeffs| && (r.coeffs[i] > COEFF_LIMIT || r.coeffs[i] < -COEFF_LIMIT)
  }

  /** The stages of a prefix, without any cache; None for an unstable prefix. */
  function Records(env: Env, degrees: seq<nat>): Option<seq<Record>> {
    if degrees == [] then Some([])
    else
      var k := |degrees| - 1;
      var prefix := Records(env, degrees[..k]);
      if prefix.None? then None
      else
        var last := if prefix.value == [] then None else Some(prefix.value[|prefix.value| - 1]);
        var rec := env.fit(last, degrees[k]);
        if rec.None? || BlownUp(rec.value) then None else Some(prefix.value + [rec.value])
  }

  /** Stage i is the fit on what the stage before it leaves, and no coefficient exceeds 1000. */
  predicate StageFits(env: Env, degrees: seq<nat>, records: seq<Record>, i: nat)
    requires i < |records| == |degrees|
  {
    env.fit(if i == 0 then None else Some(records[i - 1]), degrees[i]) == Some(records[i]) &&
    forall k :: 0 <= k < |records[i].coeffs| ==> -1000.0 <= records[i].coeffs[k] <= 1000.0
  }

  /** A prefix has these records iff each of them is such a fit; otherwise it is unstable. */
  lemma {:induction false} RecordsAre(env: Env, degrees: seq<nat>, records: seq<Record>)
    ensures Records(env, degrees) == Some(records) <==>
      |records| == |degrees| && forall i :: 0 <= i < |records| ==> StageFits(env, degrees, records, i)
    decreases |degrees|
  {
    if degrees == [] {
      assert Records(env, degrees) == Some([]);
    } else {
      var k := |degrees| - 1;
      RecordsLast(env, degrees);
      RecordsCount(env, degrees);
      if |records| == |degrees| {
        RecordsAre(env, degrees[..k], records[..k]);
        FitsBefore(env, degrees, records, k);
        LastRecord(env, degrees, records, k);
      }
      hide Records;
    }
  }

  /** The earlier stages do not depend on the last one. */
  lemma FitsBefore(env: Env, degrees: seq<nat>, records: seq<Record>, k: nat)
    requires k + 1 == |records| == |degrees|
    ensures (forall i :: 0 <= i < k + 1 ==> StageFits(env, degrees, records, i)) <==>
      (forall i :: 0 <= i < k ==> StageFits(env, degrees[..k], records[..k], i)) && StageFits(env, degrees, records, k)
  {
    forall i | 0 <= i < k
      ensures StageFits(env, degrees, records, i) <==> StageFits(env, degrees[..k], records[..k], i)
    {
    }
  }

  /** The last stage of a longer prefix. */
  lemma LastRecord(env: Env, degrees: seq<nat>, records: seq<Record>, k: nat)
    requires k + 1 == |records| == |degrees|
    ensures Records(env, degrees) == Some(records) <==>
      Records(env, degrees[..k]) == Some(records[..k]) && StageFits(env, degrees, records, k)
  {
    RecordsLast(env, degrees);
    RecordsCount(env, degrees[..k]);
    hide Records;
    assert records == records[..k] + [records[k]];
    var prefix := Records(env, degrees[..k]);
    if prefix.Some? {
      var last := if prefix.value == [] then None else Some(prefix.value[|prefix.value| - 1]);
      var rec := env.fit(last, degrees[k]);
      if rec.Some? {
        assert (prefix.value + [rec.value])[..k] == prefix.value && (prefix.value + [rec.value])[k] == rec.value;
      }
    }
  }

  lemma {:induction false} RecordsCount(env: Env, degrees: seq<nat>)
    ensures Records(env, degrees).Some? ==> |Records(env, degrees).value| == |degrees|
    decreases |degrees|
  {
    if degrees != [] { RecordsCount(env, degrees[..|degrees| - 1]); }
  }

  function BaseBits(env: Env, degrees: seq<nat>): Option<real> {
    var records := Records(env, degrees);
    if records.None? then None else env.measure(records.value)
  }

  // ----- candidates -----

  /** The last stage of a non-empty prefix. */
  lemma RecordsLast(env: Env, degrees: seq<nat>)
    requires degrees != []
    ensures var prefix := Records(env, degrees[..|degrees| - 1]);
      Records(env, degrees) ==
      if prefix.None? then None
      else
        var last := if prefix.value == [] then None else Some(prefix.value[|prefix.value| - 1]);
        var rec := env.fit(last, degrees[|degrees| - 1]);
        if rec.None? || BlownUp(rec.value) then None else Some(prefix.value + [rec.value])
  {}

  /** A schedule: the depths of its Remez stages and the orders of its refinement polynomials. */
  datatype Candidate = Candidate(parts: seq<nat>, combo: seq<nat>)

  datatype Task = Task(env: Env, orders: seq<nat>, maxRefinements: nat, target: real, maxTotalDepth: nat)

  /** Orders as `sorted(set(orders))`, each with a supported refinement degree 2 * order + 1. */
  predicate GoodTask(t: Task) {
    Increasing(t.orders) && forall o :: o in t.orders ==> BucketDepth(2 * o + 1).Some?
  }

  function RefineDepth(combo: seq<nat>): nat
    requires forall o :: o in combo ==> BucketDepth(2 * o + 1).Some?
  {
    if combo == [] then 0
    else
      assert combo[0] in combo && forall o :: o in combo[1..] ==> o in combo;
      BucketDepth(2 * combo[0] + 1).value + RefineDepth(combo[1..])
  }

  function Factor(combo: seq<nat>): real {
    if combo == [] then 1.0 else (combo[0] + 1) as real * Factor(combo[1..])
  }

  predicate IsCandidate(t: Task, c: Candidate) {
    c.parts != [] && Schedule(c.parts, 3) && |c.combo| <= t.maxRefinements && NonDecreasing(c.combo) &&
      DrawnFrom(c.combo, t.orders)
  }

  function Depth(t: Task, c: Candidate): nat
    requires GoodTask(t) && IsCandidate(t, c)
  {
    Total(c.parts) + RefineDepth(c.combo)
  }

  function Polys(c: Candidate): nat { |c.parts| + |c.combo| }

  /** Base bits times the factors of the refinements. */
  function Boosted(base: real, combo: seq<nat>): real { base * Factor(combo) }

  function BitsOf(t: Task, c: Candidate): Option<real> {
    var base := BaseBits(t.env, Degrees(c.parts));
    if base.None? then None else Some(Boosted(base.value, c.combo))
  }

  predicate Passes(t: Task, c: Candidate) {
    IsCandidate(t, c) && BitsOf(t, c).Some? && BitsOf(t, c).value >= t.target
  }

  /** A schedule has at least one Remez stage, of depth 3 or more. */
  lemma NoShortSchedule(t: Task, totalDepth: nat, combo: seq<nat>)
    requires GoodTask(t) && DrawnFrom(combo, t.orders) && totalDepth < RefineDepth(combo) + 3
    ensures forall c: Candidate :: c.combo == combo && IsCandidate(t, c) ==> Depth(t, c) != totalDepth
  {
    forall c: Candidate | c.combo == combo && IsCandidate(t, c)
      ensures Depth(t, c) != totalDepth
    {
      TotalNonNegative(c.parts);
    }
  }

  lemma EnumeratedIsCandidate(t: Task, remezDepth: nat, combo: seq<nat>, lists: seq<seq<nat>>, i: nat)
    requires GoodTask(t) && combo in Combos(t.orders, t.maxRefinements) && DrawnFrom(combo, t.orders)
    requires remezDepth >= 3 && lists == Enumerate(remezDepth, 3) && i < |lists|
    ensures var c := Candidate(lists[i], combo); IsCandidate(t, c) && Depth(t, c) == remezDepth + RefineDepth(combo)
  {
    assert lists[i] in lists;
    EnumerateExact(remezDepth, 3, lists[i]);
    CombosExact(t.orders, t.maxRefinements, combo);
  }

  /** Less depth, then fewer polynomials, then more bits. */
  predicate NoWorse(t: Task, a: Candidate, b: Candidate)
    requires GoodTask(t) && Passes(t, a) && Passes(t, b)
  {
    Depth(t, a) < Depth(t, b) || (Depth(t, a) == Depth(t, b) &&
      (Polys(a) < Polys(b) || (Polys(a) == Polys(b) && BitsOf(t, a).value >= BitsOf(t, b).value)))
  }

  /** An entry of `passing`. */
  datatype Entry = Entry(polys: nat, bits: real, c: Candidate)

  predicate EntryLe(a: Entry, b: Entry) {
    a.polys < b.polys || (a.polys == b.polys && -a.bits <= -b.bits)
  }

  class Search {
    const task: Task
    var stageCache: map<seq<nat>, Option<seq<Record>>>
    var baseBitsCache: map<seq<nat>, Option<real>>
    /** The prefixes whose last stage was fitted, in order. */
    ghost var fits: seq<seq<nat>>

    constructor (task: Task)
      ensures this.task == task && Consistent()
    {
      this.task := task;
      stageCache := map[[] := Some([])];
      baseBitsCache := map[];
      fits := [];
    }

    /** The caches agree with the uncached definitions, and no prefix was fitted twice. */
    ghost predicate Consistent()
      reads this
    {
      [] in stageCache &&
      (forall d :: d in stageCache ==> stageCache[d] == Records(task.env, d)) &&
      (forall d :: d in baseBitsCache ==> baseBitsCache[d] == BaseBits(task.env, d)) &&
      NoRepeats(fits) && forall d :: d in fits ==> d in stageCache
    }

    /** `records_for`. */
    method RecordsFor(degrees: seq<nat>) returns (r: Option<seq<Record>>)
      requires Consistent()
      modifies this`stageCache, this`fits
      ensures Consistent() && r == Records(task.env, degrees) && degrees in stageCache
      ensures old(stageCache).Keys <= stageCache.Keys
      ensures forall d :: d in stageCache && d !in old(stageCache) ==> |d| <= |degrees|
      decreases |degrees|
    {
      if degrees in stageCache {
        return stageCache[degrees];
      }
      hide *;
      EmptyIsCached();
      RecordsLast(task.env, degrees);
      var k := |degrees| - 1;
      var prefix := RecordsFor(degrees[..k]);
      if prefix.None? {
        Remember(degrees, None, false);
        return None;
      }
      var last := if prefix.value == [] then None else Some(prefix.value[|prefix.value| - 1]);
      var rec := task.env.fit(last, degrees[k]);
      r := if rec.None? || BlownUp(rec.value) then None else Some(prefix.value + [rec.value]);
      Remember(degrees, r, true);
    }

    lemma EmptyIsCached()
      requires Consistent()
      ensures [] in stageCache
    {}

    /** One more entry of the stage cache, after a fit of its last stage or without one. */
    method Remember(degrees: seq<nat>, r: Option<seq<Record>>, fitted: bool)
      requires Consistent() && degrees !in stageCache && r == Records(task.env, degrees)
      modifies this`stageCache, this`fits
      ensures Consistent() && stageCache == old(stageCache)[degrees := r]
      ensures fits == old(fits) + (if fitted then [degrees] else [])
    {
      hide Records, BaseBits;
      if fitted {
        fits := fits + [degrees];
      }
      stageCache := stageCache[degrees := r];
    }

    /** `base_bits_for`. */
    method BaseBitsFor(degrees: seq<nat>) returns (b: Option<real>)
      requires Consistent()
      modifies this
      ensures Consistent() && b == BaseBits(task.env, degrees)
    {
      if degrees in baseBitsCache {
        return baseBitsCache[degrees];
      }
      var records := RecordsFor(degrees);
      b := if records.None? then None else task.env.measure(records.value);
      baseBitsCache := baseBitsCache[degrees := b];
    }

    /** All passing schedules of one total depth with one refinement combination, added to `passing`. */
    method TryCombo(totalDepth: nat, combo: seq<nat>, passing0: seq<Entry>) returns (passing: seq<Entry>)
      requires Consistent() && GoodTask(task) && combo in Combos(task.orders, task.maxRefinements)
      requires AllValid(passing0, totalDepth)
      modifies this
      ensures Consistent()
      ensures AllValid(passing, totalDepth)
      ensures Extends(passing0, passing)
      ensures ComboDone(combo, totalDepth, passing)
    {
      passing := passing0;
      CombosExact(task.orders, task.maxRefinements, combo);
      var refineDepth := RefineDepth(combo);
      var remezDepth: int := totalDepth - refineDepth;
      if remezDepth < 3 {
        NoShortSchedule(task, totalDepth, combo);
        return;
      }
      var lists := Enumerate(remezDepth, 3);
      passing := TryLists(totalDepth, remezDepth, combo, lists, passing);
      forall c: Candidate | c.combo == combo && Passes(task, c) && Depth(task, c) == totalDepth
        ensures MakeEntry(c) in passing
      {
        EnumerateExact(remezDepth, 3, c.parts);
        var j :| 0 <= j < |lists| && lists[j] == c.parts;
        assert Found(Candidate(lists[j], combo), passing);
        assert Candidate(lists[j], combo) == c;
      }
    }

    ghost predicate Found(c: Candidate, passing: seq<Entry>) {
      Passes(task, c) ==> MakeEntry(c) in passing
    }

    /** Every passing schedule of this depth with this combination is in the list. */
    ghost predicate ComboDone(combo: seq<nat>, totalDepth: nat, passing: seq<Entry>)
      requires GoodTask(task)
    {
      forall c: Candidate :: c.combo == combo && Passes(task, c) && Depth(task, c) == totalDepth ==>
        MakeEntry(c) in passing
    }

    lemma StillDone(combo: seq<nat>, totalDepth: nat, before: seq<Entry>, after: seq<Entry>)
      requires GoodTask(task) && ComboDone(combo, totalDepth, before) && Extends(before, after)
      ensures ComboDone(combo, totalDepth, after)
    {}

    ghost predicate FoundAll(lists: seq<seq<nat>>, n: nat, combo: seq<nat>, passing: seq<Entry>)
      requires n <= |lists|
    {
      forall j :: 0 <= j < n ==> Found(Candidate(lists[j], combo), passing)
    }

    ghost predicate AllValid(passing: seq<Entry>, totalDepth: nat) {
      forall e :: e in passing ==> ValidEntry(e, totalDepth)
    }

    ghost predicate Extends(before: seq<Entry>, after: seq<Entry>) {
      forall e :: e in before ==> e in after
    }

    lemma FindMore(lists: seq<seq<nat>>, n: nat, combo: seq<nat>, before: seq<Entry>, after: seq<Entry>)
      requires n < |lists| && FoundAll(lists, n, combo, before) && Extends(before, after)
      requires Found(Candidate(lists[n], combo), after)
      ensures FoundAll(lists, n + 1, combo, after)
    {
      forall j | 0 <= j < n
        ensures Found(Candidate(lists[j], combo), after)
      {
        assert Found(Candidate(lists[j], combo), before);
      }
    }

    method TryLists(totalDepth: nat, remezDepth: nat, combo: seq<nat>, lists: seq<seq<nat>>, passing0: seq<Entry>)
      returns (passing: seq<Entry>)
      requires Consistent() && GoodTask(task) && combo in Combos(task.orders, task.maxRefinements)
      requires DrawnFrom(combo, task.orders) && remezDepth >= 3 && remezDepth + RefineDepth(combo) == totalDepth
      requires lists == Enumerate(remezDepth, 3) && AllValid(passing0, totalDepth)
      modifies this
      ensures Consistent()
      ensures AllValid(passing, totalDepth)
      ensures Extends(passing0, passing)
      ensures FoundAll(lists, |lists|, combo, passing)
    {
      passing := passing0;
      for i := 0 to |lists|
        invariant Consistent() && AllValid(passing, totalDepth) && Extends(passing0, passing)
        invariant FoundAll(lists, i, combo, passing)
      {
        EnumeratedIsCandidate(task, remezDepth, combo, lists, i);
        ghost var before := passing;
        passing := TryList(totalDepth, Candidate(lists[i], combo), passing);
        FindMore(lists, i, combo, before, passing);
      }
    }

    /** The innermost loop body: measure one schedule and keep it if it reaches the target. */
    method TryList(totalDepth: nat, c: Candidate, passing0: seq<Entry>) returns (passing: seq<Entry>)
      requires Consistent() && GoodTask(task) && IsCandidate(task, c) && Depth(task, c) == totalDepth
      requires AllValid(passing0, totalDepth)
      modifies this
      ensures Consistent()
      ensures AllValid(passing, totalDepth)
      ensures Extends(passing0, passing)
      ensures Found(c, passing)
    {
      passing := passing0;
      var base := BaseBitsFor(Degrees(c.parts));
      if base.Some? {
        var bits := Boosted(base.value, c.combo);
        assert BitsOf(task, c) == Some(bits);
        if bits >= task.target {
          var entry := Entry(|c.parts| + |c.combo|, bits, c);
          assert entry == MakeEntry(c) && ValidEntry(entry, totalDepth);
          passing := passing + [entry];
        }
      }
    }

    ghost function MakeEntry(c: Candidate): Entry
      requires BitsOf(task, c).Some?
    {
      Entry(Polys(c), BitsOf(task, c).value, c)
    }

    ghost predicate ValidEntry(e: Entry, totalDepth: nat) {
      GoodTask(task) && Passes(task, e.c) && Depth(task, e.c) == totalDepth && e == MakeEntry(e.c)
    }

    /** One round of the outer loop: the entries that pass at this total depth. */
    method PassingAt(totalDepth: nat) returns (passing: seq<Entry>)
      requires Consistent() && GoodTask(task)
      modifies this
      ensures Consistent()
      ensures AllValid(passing, totalDepth)
      ensures forall c: Candidate :: Passes(task, c) && Depth(task, c) == totalDepth ==> MakeEntry(c) in passing
    {
      hide ComboDone, Passes, Combos;
      passing := [];
      var options := Combos(task.orders, task.maxRefinements);
      for k := 0 to |options|
        invariant Consistent()
        invariant AllValid(passing, totalDepth)
        invariant forall j :: 0 <= j < k ==> ComboDone(options[j], totalDepth, passing)
      {
        ghost var before := passing;
        passing := TryCombo(totalDepth, options[k], passing);
        forall j | 0 <= j < k
          ensures ComboDone(options[j], totalDepth, passing)
        {
          StillDone(options[j], totalDepth, before, passing);
        }
      }
      AllCombosDone(totalDepth, options, passing);
    }

    /** When every offered combination is done, so is every passing candidate of the depth. */
    lemma AllCombosDone(totalDepth: nat, options: seq<seq<nat>>, passing: seq<Entry>)
      requires GoodTask(task) && options == Combos(task.orders, task.maxRefinements)
      requires forall j :: 0 <= j < |options| ==> ComboDone(options[j], totalDepth, passing)
      ensures forall c: Candidate :: Passes(task, c) && Depth(task, c) == totalDepth ==> MakeEntry(c) in passing
    {
      forall c: Candidate | Passes(task, c) && Depth(task, c) == totalDepth
        ensures MakeEntry(c) in passing
      {
        CombosExact(task.orders, task.maxRefinements, c.combo);
        var j :| 0 <= j < |options| && options[j] == c.combo;
        assert ComboDone(options[j], totalDepth, passing);
      }
    }

    /** `sign_minimax`: a passing schedule no worse than any other within the depth limit, or none if none passes. */
    method SignMinimax() returns (best: Option<Candidate>)
      requires Consistent() && GoodTask(task)
      modifies this
      ensures Consistent()
      ensures best.Some? ==> Passes(task, best.value) && Depth(task, best.value) <= task.maxTotalDepth
      ensures best.Some? ==> forall c: Candidate :: Passes(task, c) ==> NoWorse(task, best.value, c)
      ensures best.None? ==> forall c: Candidate :: Passes(task, c) ==> Depth(task, c) > task.maxTotalDepth
    {
      var totalDepth := 3;
      while totalDepth <= task.maxTotalDepth
        invariant Consistent() && totalDepth >= 3
        invariant forall c: Candidate :: Passes(task, c) ==> Depth(task, c) >= totalDepth
        decreases task.maxTotalDepth + 1 - totalDepth
      {
        var passing := PassingAt(totalDepth);
        if passing != [] {
          var sorted := Sort(EntryLe, passing);
          assert sorted[0] in multiset(sorted) && sorted[0] in multiset(passing) && sorted[0] in passing;
          forall c: Candidate | Passes(task, c)
            ensures NoWorse(task, sorted[0].c, c)
          {
            if Depth(task, c) == totalDepth {
              assert MakeEntry(c) in multiset(passing) && MakeEntry(c) in multiset(sorted);
              var j :| 0 <= j < |sorted| && sorted[j] == MakeEntry(c);
              assert EntryLe(sorted[0], sorted[j]);
            }
          }
          return Some(sorted[0].c);
        }
        totalDepth := totalDepth + 1;
      }
      best := None;
    }
  }
}
