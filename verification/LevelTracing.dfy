/**
 Level and scale inference over a shared drop log: `apply_drop_config`, the modswitch inference functions and
 `traced_consumption_order`, each against a specification on values, and the scale law of runs of such steps.
 */
module LevelTracing {
  import opened Wrappers
  import opened Reals
  import opened ModulusChain
  import opened DropConfigs
  import PrimeDivisors
  import ConsumptionOrder

  // ----- specification of the inference steps -----

  /** The first active row at or after index k that the budget allows. */
  function Chosen(rows: seq<nat>, budget: Option<set<nat>>, k: nat): (r: Option<nat>)
    ensures r.Some? ==> k <= r.value < |rows| && Allowed(rows[r.value], budget)
    decreases |rows| - k
  {
    if k >= |rows| then None
    else if Allowed(rows[k], budget) then Some(k)
    else Chosen(rows, budget, k + 1)
  }

  /** The chosen row is the first one that the budget allows, if it allows any. */
  lemma {:induction false} ChosenIsFirst(rows: seq<nat>, budget: Option<set<nat>>, from: nat, k: nat)
    ensures Chosen(rows, budget, from) == Some(k) <==>
      from <= k < |rows| && Allowed(rows[k], budget) && forall j :: from <= j < k ==> !Allowed(rows[j], budget)
    ensures Chosen(rows, budget, from).None? <==> forall j :: from <= j < |rows| ==> !Allowed(rows[j], budget)
    decreases |rows| - from
  {
    if from < |rows| {
      ChosenIsFirst(rows, budget, from + 1, k);
    }
  }

  function ScaledUp(s: Meta, up: real): Meta { s.(scale := s.scale * up) }

  /** `_get_config_for_row_or_col`: one column of the first row that the budget allows; None where it raises. */
  function FirstOf(ch: Chain, s: Meta, budget: Option<set<nat>>): (r: Option<Config>)
    requires ValidChain(ch) && Formed(ch, s)
    ensures r.Some? ==> Applicable(s, r.value)
  {
    var k := Chosen(s.rows, budget, 0);
    if k.None? then None else ConfigFor(ch, s, k.value, 1)
  }

  /** What a rescale multiplies the scale by before the drop: an explicit number, the divisor of the drop, or without
      modswitch the default scale. */
  function UpOf(ch: Chain, defaultUp: real, s: Meta, with: bool, budget: Option<set<nat>>, up: Option<real>): real
    requires ValidChain(ch) && Formed(ch, s)
  {
    if up.Some? then up.value
    else if !with then defaultUp
    else
      var config := FirstOf(ch, s, budget);
      if config.None? then 1.0 else config.value.scaleDown as real
  }

  /** `infer_optional_modswitch`; None where it raises. */
  function Rescaled(ch: Chain, defaultUp: real, s: Meta, with: bool, budget: Option<set<nat>>,
          up: Option<real>): (r: Option<Meta>)
    requires ValidChain(ch) && Formed(ch, s)
    ensures r.Some? ==> Formed(ch, r.value)
  {
    var t := ScaledUp(s, UpOf(ch, defaultUp, s, with, budget, up));
    ScaledUpIsFormed(ch, s, t);
    if !with then Some(t)
    else
      var config := FirstOf(ch, s, budget);
      if config.None? then None
      else
        AppliedIsFormed(ch, t, config.value);
        Some(Applied(t, config.value))
  }

  lemma ScaledUpIsFormed(ch: Chain, s: Meta, t: Meta)
    requires Formed(ch, s) && t.rows == s.rows && t.cols == s.cols
    ensures Formed(ch, t)
  {}

  /** `infer_modswitch_by_num_levels`; None where it raises. */
  function LevelsDown(ch: Chain, s: Meta, n: nat, budget: Option<set<nat>>): (r: Option<Meta>)
    requires ValidChain(ch) && Formed(ch, s)
    ensures r.Some? ==> Formed(ch, r.value)
    decreases n
  {
    if n == 0 then Some(s)
    else
      var r := Rescaled(ch, 1.0, s, true, budget, None);
      if r.None? then None else LevelsDown(ch, r.value, n - 1, budget)
  }

  /** The rows that `infer_modswitch_by_num_levels` logs, up to where it raises if it does. */
  function LevelRows(ch: Chain, s: Meta, n: nat, budget: Option<set<nat>>): seq<nat>
    requires ValidChain(ch) && Formed(ch, s)
    decreases n
  {
    var r := Rescaled(ch, 1.0, s, true, budget, None);
    if n == 0 || r.None? then []
    else [s.rows[Chosen(s.rows, budget, 0).value]] + LevelRows(ch, r.value, n - 1, budget)
  }

  /** `HomModSwitch.infer_output_level_and_scale`: as many columns as it was given, or the whole row (None); a negative
      relative row counts from the end. */
  function Switched(ch: Chain, s: Meta, k: int, count: Option<nat>): (r: Option<Meta>)
    requires ValidChain(ch) && Formed(ch, s)
    ensures r.Some? ==> Formed(ch, r.value)
  {
    if k < 0 then DropFromEnd(ch, s, -k, count)
    else if k >= |s.rows| then None
    else DropAt(ch, s, k, CountOf(s.cols[k], count))
  }

  /** The row that an explicit modswitch names. */
  function RowNamed(s: Meta, k: int): (r: Option<nat>)
    ensures r.Some? ==> r.value < |s.rows|
  {
    var i := if k < 0 then |s.rows| + k else k;
    if 0 <= i < |s.rows| then Some(i) else None
  }

  // ----- steps that divide by the primes they drop -----

  datatype Step =
    | Rescale(with: bool, budget: Option<set<nat>>, up: Option<real>)
    | Switch(row: int, count: Option<nat>)

  /** The step drops from a row that stands in place, and an explicit drop is fair. */
  predicate StepRight(s: Meta, step: Step)
    requires |s.rows| == |s.cols|
  {
    match step
    case Rescale(with, budget, up) =>
      var k := Chosen(s.rows, budget, 0);
      with && k.Some? ==> InPlace(s.rows, k.value)
    case Switch(k, count) =>
      var i := RowNamed(s, k);
      i.Some? ==> InPlace(s.rows, i.value) && FairSwitch(s.cols[i.value], k, count)
  }

  /** The count is fair, and the last row is not to go as a whole under the name -1. */
  predicate FairSwitch(col: seq<bool>, k: int, count: Option<nat>) {
    FairCount(col, CountOf(col, count)) && (k == -1 ==> CountOf(col, count) != LiveCount(col))
  }

  /** An explicit drop is fair. */
  predicate StepFair(s: Meta, step: Step)
    requires |s.rows| == |s.cols|
  {
    step.Switch? && RowNamed(s, step.row).Some? ==>
      FairSwitch(s.cols[RowNamed(s, step.row).value], step.row, step.count)
  }

  /** Where it is fair, an explicit modswitch drops from the row it names. */
  lemma SwitchedForward(ch: Chain, s: Meta, k: int, count: Option<nat>, i: nat)
    requires ValidChain(ch) && Good(ch, s) && Formed(ch, s) && RowNamed(s, k) == Some(i)
    requires FairSwitch(s.cols[i], k, count)
    ensures Switched(ch, s, k, count) == DropAt(ch, s, i, CountOf(s.cols[i], count))
  {
    hide DropAt, DropFromEnd, CountOf, Good;
    if k < 0 { FromEndIsForward(ch, s, -k, count, i); }
  }

  lemma SwitchedNames(ch: Chain, s: Meta, k: int, count: Option<nat>)
    requires ValidChain(ch) && Formed(ch, s) && Switched(ch, s, k, count).Some?
    ensures RowNamed(s, k).Some?
  {}

  lemma AscendingInPlace(rows: seq<nat>, k: nat)
    requires Ascending(rows) && k < |rows|
    ensures InPlace(rows, k)
  {
    assert k > 0 ==> rows[0] < rows[k];
    BelowAscending(rows, k, 0, 0);
  }

  /** On ascending rows every step is right as soon as its count is fair. */
  lemma AscendingIsRight(s: Meta, step: Step)
    requires |s.rows| == |s.cols| && Ascending(s.rows)
    ensures StepRight(s, step) <==> StepFair(s, step)
  {
    match step
    case Rescale(with, budget, up) =>
      var k := Chosen(s.rows, budget, 0);
      if k.Some? { AscendingInPlace(s.rows, k.value); }
    case Switch(k, count) => if RowNamed(s, k).Some? { AscendingInPlace(s.rows, RowNamed(s, k).value); }
  }

  lemma RowsAreLive(ch: Chain, s: Meta, k: nat)
    requires Good(ch, s) && k < |s.rows|
    ensures GoodRow(ch, s.rows, s.cols, k) && LiveCount(s.cols[k]) == |ch.factors[s.rows[k]]| - Start(s.cols[k]) >= 1
  {
    assert GoodRow(ch, s.rows, s.cols, k);
    LiveSuffixCount(s.cols[k], |ch.factors[s.rows[k]]|);
  }

  /** A rescale in place scales up and then drops the first live column of the chosen row. */
  lemma RescaledInPlace(ch: Chain, defaultUp: real, s: Meta, budget: Option<set<nat>>, up: Option<real>, k: nat,
          u: real, t: Meta)
    requires ValidChain(ch) && Good(ch, s) && Formed(ch, s) && Chosen(s.rows, budget, 0) == Some(k)
    requires InPlace(s.rows, k) && u == UpOf(ch, defaultUp, s, true, budget, up) && t == ScaledUp(s, u)
    ensures LiveCount(s.cols[k]) >= 1 && (up.None? ==> u == DropFactor(ch, s, k, 1) as real)
    ensures Rescaled(ch, defaultUp, s, true, budget, up) == Some(Dropped(ch, t, k, 1))
  {
    RowsAreLive(ch, s, k);
    DropInPlace(ch, s, k, 1);
    AppliedLevel(ch, t, k, 1, ConfigFor(ch, s, k, 1).value);
  }

  // ----- what the steps mean -----

  /** One turn of the loop of `infer_modswitch_by_num_levels`. */
  lemma LevelsStep(ch: Chain, s: Meta, n: nat, budget: Option<set<nat>>, next: Option<Meta>)
    requires ValidChain(ch) && Formed(ch, s) && n > 0 && next == Rescaled(ch, 1.0, s, true, budget, None)
    ensures next.None? ==> LevelsDown(ch, s, n, budget) == None && LevelRows(ch, s, n, budget) == []
    ensures next.Some? ==> LevelsDown(ch, s, n, budget) == LevelsDown(ch, next.value, n - 1, budget)
    ensures next.Some? ==> Chosen(s.rows, budget, 0).Some?
    ensures next.Some? ==>
      LevelRows(ch, s, n, budget) ==
        [s.rows[Chosen(s.rows, budget, 0).value]] + LevelRows(ch, next.value, n - 1, budget)
  {}

  lemma {:induction false} NothingChosen(ch: Chain, s: Meta, budget: Option<set<nat>>, k: nat)
    requires Good(ch, s) && k <= |s.rows|
    ensures Chosen(s.rows, budget, k).None? <==> LiveIn(s.rows[k..], s.cols[k..], budget) == 0
    decreases |s.rows| - k
  {
    if k < |s.rows| {
      RowsAreLive(ch, s, k);
      NothingChosen(ch, s, budget, k + 1);
      assert s.rows[k..][1..] == s.rows[k + 1..] && s.cols[k..][1..] == s.cols[k + 1..];
    }
  }

  /** A rescale with modswitch in place fails iff the budgeted rows hold no live column; otherwise it removes exactly
      one, and by default keeps the scale. */
  lemma RescaledMeaning(ch: Chain, defaultUp: real, s: Meta, budget: Option<set<nat>>, up: Option<real>,
          r: Option<Meta>)
    requires ValidChain(ch) && Good(ch, s) && Formed(ch, s) && StepRight(s, Rescale(true, budget, up))
    requires r == Rescaled(ch, defaultUp, s, true, budget, up)
    ensures r.Some? <==> BudgetLive(s, budget) > 0
    ensures r.Some? ==> Good(ch, r.value) && (Ascending(s.rows) ==> Ascending(r.value.rows))
    ensures r.Some? ==> BudgetLive(r.value, budget) == BudgetLive(s, budget) - 1 && Live(r.value) == Live(s) - 1
    ensures r.Some? && up.None? ==> r.value.scale == s.scale
  {
    NothingChosen(ch, s, budget, 0);
    assert s.rows[0..] == s.rows && s.cols[0..] == s.cols;
    if Chosen(s.rows, budget, 0).Some? {
      var k, u := Chosen(s.rows, budget, 0).value, UpOf(ch, defaultUp, s, true, budget, up);
      var t := ScaledUp(s, u);
      RescaledInPlace(ch, defaultUp, s, budget, up, k, u, t);
      DropMeaning(ch, s, u, t, k, budget, up.None?, r.value);
    }
  }

  lemma DropMeaning(ch: Chain, s: Meta, u: real, t: Meta, k: nat, budget: Option<set<nat>>, own: bool, r: Meta)
    requires ValidChain(ch) && Good(ch, s) && t == ScaledUp(s, u) && k < |s.rows| && LiveCount(s.cols[k]) >= 1
    requires Allowed(s.rows[k], budget) && r == Dropped(ch, t, k, 1)
    requires own ==> u == DropFactor(ch, s, k, 1) as real
    ensures Good(ch, r) && (Ascending(s.rows) ==> Ascending(r.rows))
    ensures BudgetLive(r, budget) == BudgetLive(s, budget) - 1 && Live(r) == Live(s) - 1
    ensures own ==> r.scale == s.scale
  {
    DropKeepsGood(ch, t, k, 1);
    if Ascending(s.rows) { DropKeepsOrder(ch, t, k, 1); }
    DropRemovesLive(ch, t, k, 1, budget);
    DropRemovesLive(ch, t, k, 1, None);
    if own { DroppedScale(ch, s, t, k, u, r); }
  }

  lemma DroppedScale(ch: Chain, s: Meta, t: Meta, k: nat, up: real, r: Meta)
    requires ValidChain(ch) && Good(ch, s) && t == ScaledUp(s, up) && k < |s.rows| && 1 <= LiveCount(s.cols[k])
    requires up == DropFactor(ch, s, k, 1) as real && r == Dropped(ch, t, k, 1)
    ensures r.scale == s.scale
  {
    var q := DropFactor(ch, t, k, 1) as real;
    assert q == up;
    UpAndDown(s.scale, up, t.scale, q, r.scale);
  }

  lemma UpAndDown(a: real, p: real, b: real, q: real, c: real)
    requires p == q > 0.0 && b == a * p && c == b / q
    ensures c == a
  {}

  lemma Regroup(a: seq<nat>, x: nat, b: seq<nat>)
    ensures a + ([x] + b) == (a + [x]) + b
  {}

  // ----- scale conservation -----

  /** t has the scale of s times `up` and divided by the primes that t no longer holds. */
  ghost predicate Balanced(ch: Chain, s: Meta, up: real, t: Meta) {
    Good(ch, s) && Good(ch, t) && Conserves(s.scale, Modulus(ch, s) as real, up, t.scale, Modulus(ch, t) as real)
  }

  predicate Conserves(scale: real, modulus: real, up: real, scale2: real, modulus2: real) {
    scale2 * modulus == scale * up * modulus2
  }

  lemma Balance(scale: real, f: real, scale2: real, m: real, m2: real)
    requires f > 0.0 && scale2 == scale / f && m == f * m2
    ensures Conserves(scale, m, 1.0, scale2, m2)
  {
    assert scale2 * f == scale;
    assert scale2 * m == (scale2 * f) * m2;
  }

  lemma {:induction false} RealProduct(a: nat, b: nat)
    ensures (a * b) as real == a as real * b as real
  {
    if a > 0 {
      RealProduct(a - 1, b);
      assert a * b == (a - 1) * b + b;
      assert a as real == (a - 1) as real + 1.0;
    }
  }

  lemma RealQuotient(d: nat, m: nat, m2: nat)
    requires m == d * m2
    ensures m as real == d as real * m2 as real
  {
    RealProduct(d, m2);
  }

  lemma ScaleAfterDrop(ch: Chain, s: Meta, k: nat, n: nat, r: Meta)
    requires ValidChain(ch) && Good(ch, s) && k < |s.rows| && 1 <= n <= LiveCount(s.cols[k])
    requires r == Dropped(ch, s, k, n)
    ensures DropFactor(ch, s, k, n) > 0 && r.scale == s.scale / DropFactor(ch, s, k, n) as real
  {}

  lemma DropFacts(ch: Chain, s: Meta, k: nat, n: nat, r: Meta, d: real, m: real, m2: real)
    requires ValidChain(ch) && Good(ch, s) && k < |s.rows| && 1 <= n <= LiveCount(s.cols[k])
    requires r == Dropped(ch, s, k, n) && Good(ch, r) && d == DropFactor(ch, s, k, n) as real
    requires m == Modulus(ch, s) as real && m2 == Modulus(ch, r) as real
    ensures d > 0.0 && r.scale == s.scale / d && m == d * m2
  {
    hide *;
    SameLength(ch, s);
    ScaleAfterDrop(ch, s, k, n, r);
    DropDividesModulus(ch, s, k, n, r);
    RealQuotient(DropFactor(ch, s, k, n), Modulus(ch, s), Modulus(ch, r));
  }

  lemma DropConserves(ch: Chain, s: Meta, k: nat, n: nat, r: Meta, d: real, m: real, m2: real)
    requires ValidChain(ch) && Good(ch, s) && k < |s.rows| && 1 <= n <= LiveCount(s.cols[k])
    requires r == Dropped(ch, s, k, n) && Good(ch, r) && d == DropFactor(ch, s, k, n) as real
    requires m == Modulus(ch, s) as real && m2 == Modulus(ch, r) as real
    ensures Conserves(s.scale, m, 1.0, r.scale, m2)
  {
    DropFacts(ch, s, k, n, r, d, m, m2);
    Balance(s.scale, d, r.scale, m, m2);
  }

  lemma DropBalances(ch: Chain, s: Meta, k: nat, n: nat, r: Meta)
    requires ValidChain(ch) && Good(ch, s) && k < |s.rows| && 1 <= n <= LiveCount(s.cols[k])
    requires r == Dropped(ch, s, k, n)
    ensures Balanced(ch, s, 1.0, r)
  {
    DropKeepsGood(ch, s, k, n);
    DropConserves(ch, s, k, n, r, DropFactor(ch, s, k, n) as real, Modulus(ch, s) as real, Modulus(ch, r) as real);
  }

  lemma ScaleUpBalances(ch: Chain, s: Meta, up: real, t: Meta)
    requires ValidChain(ch) && Good(ch, s) && t == ScaledUp(s, up)
    ensures Balanced(ch, s, up, t)
  {
    SameModulus(ch, s, t);
  }

  lemma UpThenDrop(ch: Chain, s: Meta, up: real, k: nat, t: Meta, r: Meta)
    requires ValidChain(ch) && Good(ch, s) && t == ScaledUp(s, up) && k < |t.rows|
    requires LiveCount(t.cols[k]) >= 1 && r == Dropped(ch, t, k, 1)
    ensures Balanced(ch, s, up, r)
  {
    ScaleUpBalances(ch, s, up, t);
    DropBalances(ch, t, k, 1, r);
    Chain2(ch, s, up, t, 1.0, r, up);
  }

  lemma RescaledBalances(ch: Chain, defaultUp: real, s: Meta, with: bool, budget: Option<set<nat>>, up: Option<real>,
          u: real, r: Meta)
    requires ValidChain(ch) && Good(ch, s) && Formed(ch, s) && StepRight(s, Rescale(with, budget, up))
    requires Rescaled(ch, defaultUp, s, with, budget, up) == Some(r) && u == UpOf(ch, defaultUp, s, with, budget, up)
    ensures Balanced(ch, s, u, r)
  {
    if with {
      var k := Chosen(s.rows, budget, 0).value;
      RescaledInPlace(ch, defaultUp, s, budget, up, k, u, ScaledUp(s, u));
      UpThenDrop(ch, s, u, k, ScaledUp(s, u), r);
    } else {
      ScaleUpBalances(ch, s, u, r);
    }
  }

  lemma SwitchBalances(ch: Chain, s: Meta, k: int, count: Option<nat>, r: Meta)
    requires ValidChain(ch) && Good(ch, s) && Formed(ch, s) && StepRight(s, Switch(k, count))
    requires Switched(ch, s, k, count) == Some(r)
    ensures Balanced(ch, s, 1.0, r)
  {
    SwitchedNames(ch, s, k, count);
    var i := RowNamed(s, k).value;
    SwitchedForward(ch, s, k, count, i);
    DropAtBalances(ch, s, i, CountOf(s.cols[i], count), r);
  }

  lemma DropAtBalances(ch: Chain, s: Meta, i: nat, n: nat, r: Meta)
    requires ValidChain(ch) && Good(ch, s) && Formed(ch, s) && i < |s.rows| && InPlace(s.rows, i)
    requires FairCount(s.cols[i], n) && DropAt(ch, s, i, n) == Some(r)
    ensures Balanced(ch, s, 1.0, r)
  {
    if n == 0 {
      DropNothing(ch, s, i);
      SameModulus(ch, s, r);
    } else {
      DropInPlace(ch, s, i, n);
      DropBalances(ch, s, i, n, r);
    }
  }

  lemma SameModulus(ch: Chain, s: Meta, t: Meta)
    requires Good(ch, s) && t.rows == s.rows && t.cols == s.cols
    ensures Good(ch, t) && Modulus(ch, t) == Modulus(ch, s)
  {
    assert RowProducts(ch, s) == RowProducts(ch, t);
  }

  // ----- runs of unary steps -----

  function Apply(ch: Chain, defaultUp: real, s: Meta, step: Step): (r: Option<Meta>)
    requires ValidChain(ch) && Formed(ch, s)
    ensures r.Some? ==> Formed(ch, r.value)
  {
    match step
    case Rescale(with, budget, up) => Rescaled(ch, defaultUp, s, with, budget, up)
    case Switch(k, count) => Switched(ch, s, k, count)
  }

  function StepUp(ch: Chain, defaultUp: real, s: Meta, step: Step): real
    requires ValidChain(ch) && Formed(ch, s)
  {
    match step
    case Rescale(with, budget, up) => UpOf(ch, defaultUp, s, with, budget, up)
    case Switch(k, count) => 1.0
  }

  lemma Chain2(ch: Chain, s: Meta, u: real, t: Meta, v: real, w: Meta, uv: real)
    requires ValidChain(ch) && Balanced(ch, s, u, t) && Balanced(ch, t, v, w) && uv == u * v
    ensures Balanced(ch, s, uv, w)
  {
    ModulusPositive(ch, t);
    var m, n, o := Modulus(ch, s) as real, Modulus(ch, t) as real, Modulus(ch, w) as real;
    Compose(s.scale, t.scale, w.scale, m, n, o, u, v, uv);
  }

  lemma Compose(a: real, b: real, c: real, m: real, n: real, o: real, u: real, v: real, uv: real)
    requires n > 0.0 && Conserves(a, m, u, b, n) && Conserves(b, n, v, c, o) && uv == u * v
    ensures Conserves(a, m, uv, c, o)
  {
    assert (c * n) * m == (b * m) * v * o;
    assert n * (c * m) == n * (a * (u * v) * o);
  }

  lemma ModulusPositive(ch: Chain, s: Meta)
    requires ValidChain(ch) && Good(ch, s)
    ensures Modulus(ch, s) > 0
  {
    var a := RowProducts(ch, s);
    forall k | 0 <= k < |a|
      ensures a[k] > 0
    {
      assert GoodRow(ch, s.rows, s.cols, k) && ValidRow(ch, s.rows[k]);
      if Start(s.cols[k]) <= |ch.factors[s.rows[k]]| { ProdPositive(ch.factors[s.rows[k]][Start(s.cols[k])..]); }
    }
    ProdPositive(a);
  }

  /** What a step from s to t may multiply the scale by: its own number; without one, the default scale if nothing is
      dropped, and otherwise the primes that t no longer holds. */
  ghost predicate Gain(ch: Chain, defaultUp: real, s: Meta, step: Step, t: Meta, u: real) {
    Good(ch, s) && Good(ch, t) &&
    match step
    case Switch(_, _) => u == 1.0
    case Rescale(with, _, up) =>
      if up.Some? then u == up.value
      else if with then u * Modulus(ch, t) as real == Modulus(ch, s) as real
      else u == defaultUp
  }

  /** The divisor of a right default step is the product of the primes that it removes. */
  lemma DefaultDivisor(ch: Chain, defaultUp: real, s: Meta, budget: Option<set<nat>>, u: real, r: Meta)
    requires ValidChain(ch) && Good(ch, s) && Formed(ch, s) && StepRight(s, Rescale(true, budget, None))
    requires Rescaled(ch, defaultUp, s, true, budget, None) == Some(r)
    requires u == UpOf(ch, defaultUp, s, true, budget, None)
    ensures Good(ch, r) && u * Modulus(ch, r) as real == Modulus(ch, s) as real
  {
    hide *;
    var k := ChosenInPlace(ch, defaultUp, s, budget);
    var t := ScaledUp(s, u);
    SameDrops(ch, s, u, t, k);
    RescaledInPlace(ch, defaultUp, s, budget, None, k, u, t);
    SameModulus(ch, s, t);
    DropKeepsGood(ch, t, k, 1);
    DropDividesModulus(ch, t, k, 1, r);
    RealProduct(DropFactor(ch, t, k, 1), Modulus(ch, r));
  }

  lemma ChosenInPlace(ch: Chain, defaultUp: real, s: Meta, budget: Option<set<nat>>) returns (k: nat)
    requires ValidChain(ch) && Good(ch, s) && Formed(ch, s) && StepRight(s, Rescale(true, budget, None))
    requires Rescaled(ch, defaultUp, s, true, budget, None).Some?
    ensures Chosen(s.rows, budget, 0) == Some(k) && k < |s.rows| && InPlace(s.rows, k)
  {
    k := Chosen(s.rows, budget, 0).value;
  }

  lemma SameDrops(ch: Chain, s: Meta, u: real, t: Meta, k: nat)
    requires ValidChain(ch) && Good(ch, s) && t == ScaledUp(s, u) && k < |s.rows|
    ensures t.rows == s.rows && t.cols == s.cols && |s.rows| == |s.cols| && |t.rows| == |t.cols|
    ensures Good(ch, t) && LiveCount(t.cols[k]) == LiveCount(s.cols[k])
    ensures 1 <= LiveCount(s.cols[k]) ==> DropFactor(ch, t, k, 1) == DropFactor(ch, s, k, 1)
  {}

  lemma RescaledIsGood(ch: Chain, defaultUp: real, s: Meta, with: bool, budget: Option<set<nat>>, up: Option<real>,
    r: Meta)
    requires ValidChain(ch) && Good(ch, s) && Formed(ch, s) && StepRight(s, Rescale(with, budget, up))
    requires Rescaled(ch, defaultUp, s, with, budget, up) == Some(r)
    ensures Good(ch, r)
  {
    RescaledBalances(ch, defaultUp, s, with, budget, up, UpOf(ch, defaultUp, s, with, budget, up), r);
  }

  /** A right step has exactly one gain: the number that the code scales up by. */
  lemma GainIsUp(ch: Chain, defaultUp: real, s: Meta, step: Step, u: real, r: Meta)
    requires ValidChain(ch) && Good(ch, s) && Formed(ch, s) && StepRight(s, step)
    requires Apply(ch, defaultUp, s, step) == Some(r)
    ensures Gain(ch, defaultUp, s, step, r, u) <==> u == StepUp(ch, defaultUp, s, step)
  {
    hide *;
    match step
    case Rescale(with, budget, up) =>
      ApplyRescale(ch, defaultUp, s, with, budget, up);
      RescaledIsGood(ch, defaultUp, s, with, budget, up, r);
      GainCases(ch, defaultUp, s, with, budget, up, r, u);
      if up.None? && with {
        var v := UpOf(ch, defaultUp, s, true, budget, None);
        DefaultDivisor(ch, defaultUp, s, budget, v, r);
        ModulusPositive(ch, r);
        SameFactor(u, v, Modulus(ch, r) as real, Modulus(ch, s) as real);
      }
    case Switch(k, count) => SwitchGain(ch, defaultUp, s, k, count, r, u);
  }

  lemma ApplyRescale(ch: Chain, defaultUp: real, s: Meta, with: bool, budget: Option<set<nat>>, up: Option<real>)
    requires ValidChain(ch) && Formed(ch, s)
    ensures Apply(ch, defaultUp, s, Rescale(with, budget, up)) == Rescaled(ch, defaultUp, s, with, budget, up)
    ensures StepUp(ch, defaultUp, s, Rescale(with, budget, up)) ==
            if up.Some? then up.value else if with then UpOf(ch, defaultUp, s, true, budget, None) else defaultUp
  {
    hide Rescaled, FirstOf;
  }

  lemma GainCases(ch: Chain, defaultUp: real, s: Meta, with: bool, budget: Option<set<nat>>, up: Option<real>, t: Meta,
          u: real)
    requires Good(ch, s) && Good(ch, t)
    ensures Gain(ch, defaultUp, s, Rescale(with, budget, up), t, u) <==>
      if up.Some? then u == up.value
      else if with then u * Modulus(ch, t) as real == Modulus(ch, s) as real
      else u == defaultUp
  {
    hide Good, Modulus;
  }

  lemma SwitchGain(ch: Chain, defaultUp: real, s: Meta, k: int, count: Option<nat>, r: Meta, u: real)
    requires ValidChain(ch) && Good(ch, s) && Formed(ch, s) && StepRight(s, Switch(k, count))
    requires Apply(ch, defaultUp, s, Switch(k, count)) == Some(r)
    ensures Gain(ch, defaultUp, s, Switch(k, count), r, u) <==> u == StepUp(ch, defaultUp, s, Switch(k, count))
  {
    SwitchBalances(ch, s, k, count, r);
    hide Good, Switched, Modulus;
  }

  lemma SameFactor(u: real, v: real, m: real, n: real)
    requires m > 0.0 && v * m == n
    ensures u * m == n <==> u == v
  {
    if u * m == n { assert (u - v) * m == 0.0; }
  }

  lemma StepBalances(ch: Chain, defaultUp: real, s: Meta, step: Step, u: real, r: Meta)
    requires ValidChain(ch) && Good(ch, s) && Formed(ch, s) && StepRight(s, step)
    requires Apply(ch, defaultUp, s, step) == Some(r) && Gain(ch, defaultUp, s, step, r, u)
    ensures Balanced(ch, s, u, r)
  {
    GainIsUp(ch, defaultUp, s, step, u, r);
    hide Gain;
    match step
    case Rescale(with, budget, up) => RescaledBalances(ch, defaultUp, s, with, budget, up, u, r);
    case Switch(k, count) => SwitchBalances(ch, s, k, count, r);
  }

  /** With distinct primes, a drop of one column conserves scale and modulus iff its row is in place. */
  lemma OneColumnBalancesIff(ch: Chain, s: Meta, k: nat, r: Meta)
    requires ValidChain(ch) && DistinctPrimes(ch) && Good(ch, s) && Formed(ch, s) && s.scale != 0.0
    requires k < |s.rows| && Switched(ch, s, k, Some(1)) == Some(r)
    ensures Balanced(ch, s, 1.0, r) <==> InPlace(s.rows, k)
  {
    RowsAreLive(ch, s, k);
    if InPlace(s.rows, k) {
      DropAtBalances(ch, s, k, 1, r);
    } else if Balanced(ch, s, 1.0, r) {
      RightScaleIff(ch, s, k, r);
      BalancedQuotient(ch, s, k, 1, r, Dropped(ch, s, k, 1));
    }
  }

  /** Over a chain of distinct primes, the same holds of a drop of any number of live columns. */
  lemma CountBalancesIff(ch: Chain, s: Meta, k: nat, n: nat, r: Meta)
    requires ValidChain(ch) && PrimeDivisors.PrimeChain(ch) && Good(ch, s) && Formed(ch, s) && s.scale != 0.0
    requires k < |s.rows| && 1 <= n <= LiveCount(s.cols[k]) && Switched(ch, s, k, Some(n)) == Some(r)
    ensures Balanced(ch, s, 1.0, r) <==> InPlace(s.rows, k)
  {
    if InPlace(s.rows, k) {
      DropAtBalances(ch, s, k, n, r);
    } else if Balanced(ch, s, 1.0, r) {
      BalancedQuotient(ch, s, k, n, r, Dropped(ch, s, k, n));
      PrimeDivisors.RightScaleOfCountIff(ch, s, k, n, r);
    }
  }

  /** A balanced drop divides by the primes that it removes. */
  lemma BalancedQuotient(ch: Chain, s: Meta, k: nat, n: nat, r: Meta, t: Meta)
    requires ValidChain(ch) && Good(ch, s) && Formed(ch, s) && k < |s.rows| && 1 <= n <= LiveCount(s.cols[k])
    requires DropAt(ch, s, k, n) == Some(r) && Balanced(ch, s, 1.0, r) && t == Dropped(ch, s, k, n)
    ensures r.scale == s.scale / DropFactor(ch, s, k, n) as real
  {
    AppliedLevel(ch, s, k, n, ConfigFor(ch, s, k, n).value);
    SameModulus(ch, r, t);
    ModulusPositive(ch, t);
    var d, m, m2 := DropFactor(ch, s, k, n) as real, Modulus(ch, s) as real, Modulus(ch, t) as real;
    DropFacts(ch, s, k, n, t, d, m, m2);
    CancelModulus(s.scale, d, r.scale, m, m2);
  }

  lemma CancelModulus(scale: real, d: real, scale2: real, m: real, m2: real)
    requires d > 0.0 && m2 > 0.0 && m == d * m2 && Conserves(scale, m, 1.0, scale2, m2)
    ensures scale2 == scale / d
  {
    assert (scale2 * d - scale) * m2 == 0.0;
    assert scale2 * d == scale;
  }

  function Run(ch: Chain, defaultUp: real, s: Meta, steps: seq<Step>): (r: Option<Meta>)
    requires ValidChain(ch) && Formed(ch, s)
    ensures r.Some? ==> Formed(ch, r.value)
    decreases |steps|
  {
    if steps == [] then Some(s)
    else
      var r := Apply(ch, defaultUp, s, steps[0]);
      if r.None? then None else Run(ch, defaultUp, r.value, steps[1..])
  }

  /** Every step of the run is right in the state it meets. */
  predicate RunRight(ch: Chain, defaultUp: real, s: Meta, steps: seq<Step>)
    requires ValidChain(ch) && Formed(ch, s)
    decreases |steps|
  {
    steps == [] ||
    (StepRight(s, steps[0]) &&
     var r := Apply(ch, defaultUp, s, steps[0]);
     r.Some? ==> RunRight(ch, defaultUp, r.value, steps[1..]))
  }

  function LevelSteps(n: nat, budget: Option<set<nat>>): seq<Step> { seq(n, i => Rescale(true, budget, None)) }

  lemma SameRescale(ch: Chain, defaultUp: real, s: Meta, n: nat, budget: Option<set<nat>>, r: Option<Meta>)
    requires ValidChain(ch) && Formed(ch, s) && n > 0 && r == Rescaled(ch, 1.0, s, true, budget, None)
    ensures LevelsDown(ch, s, n, budget) == if r.None? then None else LevelsDown(ch, r.value, n - 1, budget)
    ensures Run(ch, defaultUp, s, LevelSteps(n, budget)) ==
            if r.None? then None else Run(ch, defaultUp, r.value, LevelSteps(n - 1, budget))
  {
    hide Rescaled;
    var steps := LevelSteps(n, budget);
    assert steps[0] == Rescale(true, budget, None) && steps[1..] == LevelSteps(n - 1, budget);
    SameUp(ch, defaultUp, s, budget);
    assert Apply(ch, defaultUp, s, steps[0]) == r;
  }

  lemma NoSteps(ch: Chain, defaultUp: real, s: Meta, budget: Option<set<nat>>)
    requires ValidChain(ch) && Formed(ch, s)
    ensures Run(ch, defaultUp, s, LevelSteps(0, budget)) == Some(s)
  {}

  /** Without an explicit scale-up a rescale with modswitch does not use the default scale. */
  lemma SameUp(ch: Chain, defaultUp: real, s: Meta, budget: Option<set<nat>>)
    requires ValidChain(ch) && Formed(ch, s)
    ensures Rescaled(ch, defaultUp, s, true, budget, None) == Rescaled(ch, 1.0, s, true, budget, None)
  {}

  /** Dropping n levels is a run of n rescales by the prime then dropped, whatever the default scale. */
  lemma {:induction false} LevelsDownIsRun(ch: Chain, defaultUp: real, s: Meta, n: nat, budget: Option<set<nat>>)
    requires ValidChain(ch) && Formed(ch, s)
    ensures LevelsDown(ch, s, n, budget) == Run(ch, defaultUp, s, LevelSteps(n, budget))
    decreases n
  {
    hide *;
    if n == 0 {
      NoLevels(ch, s, budget);
      NoSteps(ch, defaultUp, s, budget);
    } else {
      var r := Rescaled(ch, 1.0, s, true, budget, None);
      SameRescale(ch, defaultUp, s, n, budget, r);
      if r.Some? { LevelsDownIsRun(ch, defaultUp, r.value, n - 1, budget); }
    }
  }

  /** One gain for each step of a run. */
  ghost predicate GainsOf(ch: Chain, defaultUp: real, s: Meta, steps: seq<Step>, us: seq<real>)
    requires ValidChain(ch) && Formed(ch, s)
    decreases |steps|
  {
    |us| == |steps| &&
    (steps != [] ==>
       var t := Apply(ch, defaultUp, s, steps[0]);
       t.Some? ==>
         Gain(ch, defaultUp, s, steps[0], t.value, us[0]) && GainsOf(ch, defaultUp, t.value, steps[1..], us[1..]))
  }

  /** Every right run has gains. */
  lemma {:induction false} GainsExist(ch: Chain, defaultUp: real, s: Meta, steps: seq<Step>,
    r: Meta) returns (us: seq<real>)
    requires ValidChain(ch) && Good(ch, s) && Formed(ch, s) && RunRight(ch, defaultUp, s, steps)
    requires Run(ch, defaultUp, s, steps) == Some(r)
    ensures GainsOf(ch, defaultUp, s, steps, us)
    decreases |steps|
  {
    if steps == [] {
      us := [];
    } else {
      hide Apply, StepUp, StepRight, Gain;
      var t, u := Apply(ch, defaultUp, s, steps[0]).value, StepUp(ch, defaultUp, s, steps[0]);
      GainIsUp(ch, defaultUp, s, steps[0], u, t);
      StepBalances(ch, defaultUp, s, steps[0], u, t);
      BalancedIsGood(ch, s, u, t);
      var vs := GainsExist(ch, defaultUp, t, steps[1..], r);
      us := [u] + vs;
      assert us[1..] == vs;
    }
  }

  function Product(us: seq<real>): real {
    if us == [] then 1.0 else us[0] * Product(us[1..])
  }

  /** Over every run of right steps the state stays good, and the final scale times the dropped primes is the initial
      scale times the product of the gains. */
  lemma {:induction false} RunConserves(ch: Chain, defaultUp: real, s: Meta, steps: seq<Step>, us: seq<real>, r: Meta)
    requires ValidChain(ch) && Good(ch, s) && Formed(ch, s) && RunRight(ch, defaultUp, s, steps)
    requires Run(ch, defaultUp, s, steps) == Some(r) && GainsOf(ch, defaultUp, s, steps, us)
    ensures Balanced(ch, s, Product(us), r)
    decreases |steps|, 1
  {
    hide *;
    if steps == [] {
      NothingRun(ch, defaultUp, s, us);
      SameModulus(ch, s, r);
      StillBalanced(ch, s, r);
    } else {
      var t := FirstStepBalances(ch, defaultUp, s, steps, us, r);
      RunConservesFrom(ch, defaultUp, s, us[0], t, steps[1..], us[1..], Product(us), r);
    }
  }

  lemma NothingRun(ch: Chain, defaultUp: real, s: Meta, us: seq<real>)
    requires ValidChain(ch) && Formed(ch, s) && GainsOf(ch, defaultUp, s, [], us)
    ensures Run(ch, defaultUp, s, []) == Some(s) && Product(us) == 1.0
  {}

  lemma StillBalanced(ch: Chain, s: Meta, r: Meta)
    requires Good(ch, s) && r == s
    ensures Balanced(ch, s, 1.0, r)
  {}

  lemma FirstStepBalances(ch: Chain, defaultUp: real, s: Meta, steps: seq<Step>, us: seq<real>, r: Meta)
    returns (t: Meta)
    requires ValidChain(ch) && Good(ch, s) && Formed(ch, s) && RunRight(ch, defaultUp, s, steps) && steps != []
    requires Run(ch, defaultUp, s, steps) == Some(r) && GainsOf(ch, defaultUp, s, steps, us)
    ensures us != [] && Balanced(ch, s, us[0], t) && Formed(ch, t)
    ensures RunRight(ch, defaultUp, t, steps[1..]) && Run(ch, defaultUp, t, steps[1..]) == Some(r)
    ensures GainsOf(ch, defaultUp, t, steps[1..], us[1..]) && Product(us) == us[0] * Product(us[1..])
  {
    hide Apply, StepRight, Gain, Balanced;
    t := Apply(ch, defaultUp, s, steps[0]).value;
    StepBalances(ch, defaultUp, s, steps[0], us[0], t);
  }

  lemma ProductCons(a: real, vs: seq<real>, us: seq<real>)
    requires us == [a] + vs
    ensures Product(us) == a * Product(vs)
  {
    assert us[1..] == vs;
  }

  lemma BalancedIsGood(ch: Chain, s: Meta, up: real, t: Meta)
    requires Balanced(ch, s, up, t)
    ensures Good(ch, t)
  {}

  lemma RunConservesFrom(ch: Chain, defaultUp: real, s: Meta, a: real, t: Meta, rest: seq<Step>, vs: seq<real>,
          u: real, r: Meta)
    requires ValidChain(ch) && Balanced(ch, s, a, t) && Formed(ch, t) && RunRight(ch, defaultUp, t, rest)
    requires Run(ch, defaultUp, t, rest) == Some(r) && GainsOf(ch, defaultUp, t, rest, vs) && u == a * Product(vs)
    ensures Balanced(ch, s, u, r)
    decreases |rest|, 2
  {
    hide *;
    BalancedIsGood(ch, s, a, t);
    RunConserves(ch, defaultUp, t, rest, vs, r);
    Chain2(ch, s, a, t, Product(vs), r, u);
  }

  predicate IsScaled(s: Meta, u: real, t: Meta) { t.rows == s.rows && t.cols == s.cols && t.scale == s.scale * u }

  function DefaultSteps(n: nat, budget: Option<set<nat>>): seq<Step> { seq(n, i => Rescale(false, budget, None)) }

  /** n default steps without modswitch keep rows and columns and multiply the scale by the n-th power of the default
      one. */
  lemma {:induction false} DefaultScaleUps(ch: Chain, defaultUp: real, s: Meta, n: nat, budget: Option<set<nat>>)
    requires ValidChain(ch) && Formed(ch, s)
    ensures var r := Run(ch, defaultUp, s, DefaultSteps(n, budget));
      r.Some? && IsScaled(s, Power(defaultUp, n), r.value)
    decreases n
  {
    hide *;
    if n == 0 {
      NoDefaultSteps(ch, defaultUp, s, budget);
    } else {
      var t := FirstDefaultStep(ch, defaultUp, s, n, budget);
      NextPower(defaultUp, n);
      DefaultScaleUps(ch, defaultUp, t, n - 1, budget);
      OneFactorMore(s, defaultUp, Power(defaultUp, n - 1), Power(defaultUp, n), t,
        Run(ch, defaultUp, t, DefaultSteps(n - 1, budget)).value);
    }
  }

  lemma FirstDefaultStep(ch: Chain, defaultUp: real, s: Meta, n: nat, budget: Option<set<nat>>) returns (t: Meta)
    requires ValidChain(ch) && Formed(ch, s) && n > 0
    ensures IsScaled(s, defaultUp, t) && Formed(ch, t)
    ensures Run(ch, defaultUp, s, DefaultSteps(n, budget)) == Run(ch, defaultUp, t, DefaultSteps(n - 1, budget))
  {
    var steps := DefaultSteps(n, budget);
    assert steps[0] == Rescale(false, budget, None) && steps[1..] == DefaultSteps(n - 1, budget);
    t := ScaledUp(s, defaultUp);
    ScaledUpIsFormed(ch, s, t);
    assert Apply(ch, defaultUp, s, steps[0]) == Some(t);
  }

  lemma NoDefaultSteps(ch: Chain, defaultUp: real, s: Meta, budget: Option<set<nat>>)
    requires ValidChain(ch) && Formed(ch, s)
    ensures var r := Run(ch, defaultUp, s, DefaultSteps(0, budget));
      r.Some? && IsScaled(s, Power(defaultUp, 0), r.value)
  {
    NoPower(s.scale, defaultUp);
  }

  lemma NextPower(u: real, n: nat)
    requires n > 0
    ensures Power(u, n) == u * Power(u, n - 1)
  {}

  lemma NoPower(a: real, u: real)
    ensures a * Power(u, 0) == a
  {}

  lemma OneFactorMore(s: Meta, u: real, p: real, q: real, t: Meta, r: Meta)
    requires q == u * p && IsScaled(s, u, t) && IsScaled(t, p, r)
    ensures IsScaled(s, q, r)
  {
    assert (s.scale * u) * p == s.scale * (u * p);
  }

  // ----- dropping several levels -----

  lemma DropAtKeepsOrder(ch: Chain, s: Meta, i: nat, n: nat, r: Meta)
    requires ValidChain(ch) && Good(ch, s) && Formed(ch, s) && Ascending(s.rows) && i < |s.rows|
    requires InPlace(s.rows, i) && FairCount(s.cols[i], n) && DropAt(ch, s, i, n) == Some(r)
    ensures Good(ch, r) && Ascending(r.rows)
  {
    if n == 0 {
      DropNothing(ch, s, i);
    } else {
      DropInPlace(ch, s, i, n);
      DropKeepsGood(ch, s, i, n);
      DropKeepsOrder(ch, s, i, n);
    }
  }

  lemma StepKeepsOrder(ch: Chain, defaultUp: real, s: Meta, step: Step, r: Meta)
    requires ValidChain(ch) && Good(ch, s) && Formed(ch, s) && Ascending(s.rows) && StepFair(s, step)
    requires Apply(ch, defaultUp, s, step) == Some(r)
    ensures Good(ch, r) && Ascending(r.rows)
  {
    AscendingIsRight(s, step);
    match step
    case Rescale(with, budget, up) =>
      if with {
        RescaledMeaning(ch, defaultUp, s, budget, up, Some(r));
      } else {
        SameModulus(ch, s, r);
      }
    case Switch(k, count) =>
      SwitchedNames(ch, s, k, count);
      var i := RowNamed(s, k).value;
      SwitchedForward(ch, s, k, count, i);
      DropAtKeepsOrder(ch, s, i, CountOf(s.cols[i], count), r);
  }

  /** From ascending rows every run of level drops is right. */
  lemma {:induction false} AscendingRun(ch: Chain, defaultUp: real, s: Meta, n: nat, budget: Option<set<nat>>)
    requires ValidChain(ch) && Good(ch, s) && Formed(ch, s) && Ascending(s.rows)
    ensures RunRight(ch, defaultUp, s, LevelSteps(n, budget))
    decreases n
  {
    if n > 0 {
      hide Apply, StepRight, Ascending, Good;
      var steps := LevelSteps(n, budget);
      assert steps[0] == Rescale(true, budget, None) && steps[1..] == LevelSteps(n - 1, budget);
      AscendingIsRight(s, steps[0]);
      var r := Apply(ch, defaultUp, s, steps[0]);
      if r.Some? {
        StepKeepsOrder(ch, defaultUp, s, steps[0], r.value);
        AscendingRun(ch, defaultUp, r.value, n - 1, budget);
      }
    }
  }

  lemma NoLevels(ch: Chain, s: Meta, budget: Option<set<nat>>)
    requires ValidChain(ch) && Formed(ch, s)
    ensures LevelsDown(ch, s, 0, budget) == Some(s) && LevelRows(ch, s, 0, budget) == []
  {}

  lemma RunRightStep(ch: Chain, s: Meta, n: nat, budget: Option<set<nat>>, t: Option<Meta>)
    requires ValidChain(ch) && Formed(ch, s) && n > 0 && RunRight(ch, 1.0, s, LevelSteps(n, budget))
    requires t == Rescaled(ch, 1.0, s, true, budget, None)
    ensures StepRight(s, Rescale(true, budget, None))
    ensures t.Some? ==> RunRight(ch, 1.0, t.value, LevelSteps(n - 1, budget))
  {
    var steps := LevelSteps(n, budget);
    assert steps[0] == Rescale(true, budget, None) && steps[1..] == LevelSteps(n - 1, budget);
    assert Apply(ch, 1.0, s, steps[0]) == t;
  }

  /** If every drop is right, `infer_modswitch_by_num_levels(n)` succeeds iff the budgeted rows hold at least n live
      columns; it then removes exactly n of them and leaves the scale as it was. */
  lemma {:induction false} LevelsDownMeaning(ch: Chain, s: Meta, n: nat, budget: Option<set<nat>>, r: Option<Meta>)
    requires ValidChain(ch) && Good(ch, s) && Formed(ch, s) && RunRight(ch, 1.0, s, LevelSteps(n, budget))
    requires r == LevelsDown(ch, s, n, budget)
    ensures r.Some? <==> BudgetLive(s, budget) >= n
    ensures r.Some? ==> Good(ch, r.value) && r.value.scale == s.scale
    ensures r.Some? && Ascending(s.rows) ==> Ascending(r.value.rows)
    ensures r.Some? ==> BudgetLive(r.value, budget) == BudgetLive(s, budget) - n && Live(r.value) == Live(s) - n
    decreases n
  {
    hide *;
    if n == 0 {
      NoLevels(ch, s, budget);
    } else {
      var t := Rescaled(ch, 1.0, s, true, budget, None);
      RunRightStep(ch, s, n, budget, t);
      RescaledMeaning(ch, 1.0, s, budget, None, t);
      LevelsStep(ch, s, n, budget, t);
      if t.Some? { LevelsDownMeaning(ch, t.value, n - 1, budget, r); }
    }
  }

  // ----- the log of dropped rows -----

  class DropLog {
    const ch: Chain
    /** The absolute rows that the level tracing dropped from, in order. */
    var dropOrder: seq<nat>

    constructor (ch: Chain)
      ensures this.ch == ch && dropOrder == []
    {
      this.ch := ch;
      dropOrder := [];
    }

    /** `traced_consumption_order`: every pipeline row once. */
    function TracedConsumptionOrder(): (r: seq<nat>)
      reads this
      ensures ConsumptionOrder.IsPermutationOf(r, ch.layout.pipeline)
    {
      var d := |ConsumptionOrder.DroppedRows(dropOrder, ch.layout.pipeline)|;
      ConsumptionOrder.OrderIsPermutation(dropOrder, ch.layout.pipeline, d);
      ConsumptionOrder.TracedOrder(dropOrder, ch.layout.pipeline)
    }

    /** The column loop of `_get_drop_config_for_x_levels_in_a_given_row`. */
    method ColumnsToDrop(col: seq<bool>, n: nat) returns (drop: seq<nat>)
      ensures drop == Collected(col, n)
    {
      drop := [];
      for i := 0 to |col|
        invariant drop + LiveCols(col, i) == LiveCols(col, 0)
        invariant i == 0 ==> drop == []
        invariant i > 0 ==> if n == 0 then col[0] && drop != [] else |drop| < n
      {
        LiveColsStep(col, i, drop);
        if col[i] {
          drop := drop + [i];
        }
        if |drop| == n {
          CollectedPrefix(col, n, drop, LiveCols(col, i + 1));
          return;
        }
      }
      CollectedPrefix(col, n, drop, []);
    }

    /** `_get_drop_config_for_x_levels_in_a_given_row`, after the row has been looked up. */
    method DropConfigAt(s: Meta, i: nat, j: nat, n: nat) returns (config: Option<Config>)
      requires ValidChain(ch) && Formed(ch, s) && i < |s.rows|
      ensures config == ConfigAt(ch, s, i, j, n)
    {
      assert FormedRow(ch, s.rows[i], s.cols[i]);
      var col := s.cols[i];
      var primes := PrimesRead(ch, s.rows, j);
      if primes.None? {
        return None;
      }
      assert ValidRow(ch, AscendingRow(s.rows, j, 0, |ch.factors|).value);
      if LiveCount(col) == n {
        config := Some(Config(i, None, ProdLive(primes.value, col)));
      } else {
        var cols := ColumnsToDrop(col, n);
        if exists c :: 0 <= c < |cols| && cols[c] >= |primes.value| {
          return None;
        }
        config := Some(Config(i, Some(cols), ProdAt(primes.value, cols)));
      }
    }

    method DropConfig(s: Meta, k: nat, n: nat) returns (config: Option<Config>)
      requires ValidChain(ch) && Formed(ch, s)
      ensures config == ConfigFor(ch, s, k, n)
    {
      if k >= |s.rows| {
        return None;
      }
      config := DropConfigAt(s, k, k, n);
    }

    /** `_get_config_for_row_or_col`. */
    method FirstConfig(s: Meta, budget: Option<set<nat>>) returns (config: Option<Config>)
      requires ValidChain(ch) && Formed(ch, s)
      ensures config == FirstOf(ch, s, budget)
      ensures config.Some? ==> Chosen(s.rows, budget, 0) == Some(config.value.row)
    {
      for k := 0 to |s.rows|
        invariant Chosen(s.rows, budget, 0) == Chosen(s.rows, budget, k)
      {
        if budget.Some? && s.rows[k] !in budget.value {
          continue;
        }
        config := DropConfig(s, k, 1);
        return;
      }
      config := None;
    }

    /** `apply_drop_config`: the new metadata, and the row in the log. */
    method ApplyDropConfig(s: Meta, config: Config) returns (r: Meta)
      requires Applicable(s, config)
      modifies this`dropOrder
      ensures dropOrder == old(dropOrder) + [s.rows[config.row]]
      ensures r == Applied(s, config)
    {
      var k := config.row;
      dropOrder := dropOrder + [s.rows[k]];
      var rows, cols;
      if config.cols.None? {
        cols := s.cols[..k] + s.cols[k + 1..];
        rows := s.rows[..k] + s.rows[k + 1..];
      } else {
        var drop := config.cols.value;
        var col := s.cols[k];
        for i := 0 to |drop|
          invariant |col| == |s.cols[k]|
          invariant forall c :: 0 <= c < |col| ==> (col[c] <==> s.cols[k][c] && c !in drop[..i])
        {
          col := col[drop[i] := false];
          assert drop[..i + 1] == drop[..i] + [drop[i]];
        }
        assert drop[..|drop|] == drop;
        assert col == Without(s.cols[k], drop);
        cols := s.cols[k := col];
        rows := s.rows;
      }
      r := Meta(rows, cols, s.scale / config.scaleDown as real);
    }

    /** `infer_optional_modswitch`. */
    method OptionalModswitch(defaultUp: real, s: Meta, with: bool, budget: Option<set<nat>>, up: Option<real>)
      returns (r: Option<Meta>)
      requires ValidChain(ch) && Formed(ch, s)
      modifies this`dropOrder
      ensures r == Rescaled(ch, defaultUp, s, with, budget, up)
      ensures with && r.Some? ==> Chosen(s.rows, budget, 0).Some?
      ensures dropOrder == old(dropOrder) + (if with && r.Some? then [s.rows[Chosen(s.rows, budget, 0).value]] else [])
    {
      if !with {
        return Some(ScaledUp(s, if up.Some? then up.value else defaultUp));
      }
      var config := FirstConfig(s, budget);
      if config.None? {
        return None;
      }
      var scaleUp := if up.Some? then up.value else config.value.scaleDown as real;
      var t := ApplyDropConfig(ScaledUp(s, scaleUp), config.value);
      r := Some(t);
    }

    /** `infer_modswitch_by_num_levels`: None where it raises, with the rows dropped until then still logged. */
    method ModswitchByNumLevels(s: Meta, n: nat, budget: Option<set<nat>>) returns (r: Option<Meta>)
      requires ValidChain(ch) && Formed(ch, s)
      modifies this`dropOrder
      ensures r == LevelsDown(ch, s, n, budget)
      ensures dropOrder == old(dropOrder) + LevelRows(ch, s, n, budget)
    {
      hide LevelsDown, LevelRows;
      var input := s;
      ghost var down, log := LevelsDown(ch, s, n, budget), dropOrder + LevelRows(ch, s, n, budget);
      for i := 0 to n
        invariant Formed(ch, input) && LevelsDown(ch, input, n - i, budget) == down
        invariant dropOrder + LevelRows(ch, input, n - i, budget) == log
      {
        ghost var before := dropOrder;
        var next := OptionalModswitch(1.0, input, true, budget, None);
        LevelsStep(ch, input, n - i, budget, next);
        if next.None? {
          return None;
        }
        Regroup(before, input.rows[Chosen(input.rows, budget, 0).value], LevelRows(ch, next.value, n - i - 1, budget));
        input := next.value;
      }
      NoLevels(ch, input, budget);
      r := Some(input);
    }

    /** `HomModSwitch.infer_output_level_and_scale`. */
    method ModSwitch(s: Meta, k: int, count: Option<nat>) returns (r: Option<Meta>)
      requires ValidChain(ch) && Formed(ch, s)
      modifies this`dropOrder
      ensures r == Switched(ch, s, k, count)
      ensures r.Some? ==> RowNamed(s, k).Some?
      ensures dropOrder == old(dropOrder) + (if r.Some? then [s.rows[RowNamed(s, k).value]] else [])
    {
      hide ConfigFor, Applied, DropFromEnd;
      if k < 0 {
        r := ModSwitchFromEnd(s, -k, count);
        return;
      }
      if k >= |s.rows| {
        return None;
      }
      var config := DropConfig(s, k, CountOf(s.cols[k], count));
      if config.None? {
        return None;
      }
      var t := ApplyDropConfig(s, config.value);
      r := Some(t);
    }

    /** The same for a negative row: it indexes `active_cols` and `active_rows` from the end, and independently of that
        the factors of the active rows. */
    method ModSwitchFromEnd(s: Meta, back: nat, count: Option<nat>) returns (r: Option<Meta>)
      requires ValidChain(ch) && Formed(ch, s) && back >= 1
      modifies this`dropOrder
      ensures r == DropFromEnd(ch, s, back, count)
      ensures r.Some? ==> back <= |s.rows|
      ensures dropOrder == old(dropOrder) + (if r.Some? then [s.rows[|s.rows| - back]] else [])
    {
      hide ConfigAt, Applied, Below;
      if back > |s.rows| || back > ActiveCount(ch, s.rows) {
        return None;
      }
      var i := |s.rows| - back;
      var config := DropConfigAt(s, i, ActiveCount(ch, s.rows) - back, CountOf(s.cols[i], count));
      if config.None? {
        return None;
      }
      if back == 1 && config.value.cols.None? {
        dropOrder := dropOrder + [s.rows[i]];
        r := Some(LastKept(s, config.value.scaleDown));
      } else {
        var t := ApplyDropConfig(s, config.value);
        r := Some(t);
      }
    }
  }
}
