/**
 Circuits without row budgets: every state they reach is a tail of the chain, so that their joins never fail.
 */
module LevelTails {
  import opened Wrappers
  import opened ModulusChain
  import opened DropConfigs
  import opened LevelTracing
  import opened LevelJoins

  // ----- states that are tails of the chain -----

  /** The rows are the last rows that a bootstrap restores, and only the first of them may have lost columns. */
  predicate Tail(p: Params, s: Meta)
    requires ValidParams(p)
  {
    Good(p.ch, s) && Formed(p.ch, s) && SuffixOf(BootRows(p), s.rows) &&
    forall k :: 1 <= k < |s.rows| ==> FullRow(p.ch, s, k)
  }

  predicate SuffixOf(full: seq<nat>, rows: seq<nat>) { |rows| <= |full| && rows == full[|full| - |rows|..] }

  lemma SuffixRest(full: seq<nat>, rows: seq<nat>)
    requires SuffixOf(full, rows) && rows != []
    ensures SuffixOf(full, rows[1..])
  {}

  lemma TailAscends(p: Params, s: Meta)
    requires ValidParams(p) && Tail(p, s)
    ensures Ascending(s.rows)
  {
    BootRowsFacts(p);
  }

  predicate FullRow(ch: Chain, s: Meta, k: nat)
    requires ValidChain(ch) && Good(ch, s) && k < |s.rows|
  {
    Start(s.cols[k]) == 0
  }

  function Capacity(ch: Chain, rows: seq<nat>): nat
    requires forall k :: 0 <= k < |rows| ==> rows[k] < |ch.factors|
  {
    if rows == [] then 0 else |ch.factors[rows[0]]| + Capacity(ch, rows[1..])
  }

  /** All levels that a bootstrap restores. */
  function BootLevels(p: Params): nat
    requires ValidParams(p)
  {
    BootRowsFacts(p);
    Capacity(p.ch, BootRows(p))
  }

  lemma FullIsTail(p: Params, rows: seq<nat>, scale: real)
    requires ValidParams(p) && SuffixOf(BootRows(p), rows) && InChain(p.ch, rows) && Distinct(rows)
    ensures Tail(p, FullMeta(p.ch, rows, scale))
    ensures Live(FullMeta(p.ch, rows, scale)) == Capacity(p.ch, rows)
  {
    var s := FullMeta(p.ch, rows, scale);
    FullIsGood(p.ch, rows, scale);
    forall k | 0 <= k < |rows|
      ensures GoodRow(p.ch, s.rows, s.cols, k) && Start(s.cols[k]) == 0
    {
      assert ValidRow(p.ch, rows[k]);
    }
    FullLive(p.ch, rows, s.cols);
  }

  lemma {:induction false} FullLive(ch: Chain, rows: seq<nat>, cols: seq<seq<bool>>)
    requires ValidChain(ch) && |rows| == |cols| && forall k :: 0 <= k < |rows| ==> rows[k] < |ch.factors|
    requires forall k :: 0 <= k < |rows| ==> LiveSuffix(cols[k], |ch.factors[rows[k]]|) && Start(cols[k]) == 0
    ensures LiveIn(rows, cols, None) == Capacity(ch, rows)
  {
    if rows != [] {
      LiveSuffixCount(cols[0], |ch.factors[rows[0]]|);
      FullLive(ch, rows[1..], cols[1..]);
    }
  }

  /** The live count of a tail: what is left of its first row, and all of the later rows. */
  lemma TailLive(p: Params, s: Meta)
    requires ValidParams(p) && Tail(p, s)
    ensures s.rows == [] ==> Live(s) == 0
    ensures s.rows != [] ==> (forall k :: 0 <= k < |s.rows| ==> s.rows[k] < |p.ch.factors|) &&
                             Start(s.cols[0]) < |p.ch.factors[s.rows[0]]| &&
                             Live(s) == |p.ch.factors[s.rows[0]]| - Start(s.cols[0]) + Capacity(p.ch, s.rows[1..])
  {
    if s.rows != [] {
      forall k | 0 <= k < |s.rows|
        ensures s.rows[k] < |p.ch.factors| && LiveSuffix(s.cols[k], |p.ch.factors[s.rows[k]]|)
      {
        assert GoodRow(p.ch, s.rows, s.cols, k);
      }
      LiveSuffixCount(s.cols[0], |p.ch.factors[s.rows[0]]|);
      forall k | 0 <= k < |s.rows[1..]|
        ensures Start(s.cols[1..][k]) == 0
      {
        assert FullRow(p.ch, s, k + 1);
      }
      FullLive(p.ch, s.rows[1..], s.cols[1..]);
    }
  }

  lemma {:induction false} CapacityGrows(ch: Chain, rows: seq<nat>, j: nat)
    requires ValidChain(ch) && (forall k :: 0 <= k < |rows| ==> rows[k] < |ch.factors|) && j <= |rows|
    ensures Capacity(ch, rows[j..]) + j <= Capacity(ch, rows)
  {
    if j > 0 {
      assert ValidRow(ch, rows[0]);
      CapacityGrows(ch, rows[1..], j - 1);
      assert rows[1..][j - 1..] == rows[j..];
    } else {
      assert rows[0..] == rows;
    }
  }

  lemma SuffixOfSuffix(full: seq<nat>, a: seq<nat>, b: seq<nat>)
    requires |b| < |a| <= |full| && a == full[|full| - |a|..] && b == full[|full| - |b|..]
    ensures a[1..][|a| - |b| - 1..] == b && a[0] == full[|full| - |a|]
  {}

  lemma TailBounds(p: Params, s: Meta)
    requires ValidParams(p) && Tail(p, s)
    ensures forall k :: 0 <= k < |s.rows| ==> s.rows[k] < |p.ch.factors|
    ensures Live(s) <= Capacity(p.ch, s.rows)
    ensures s.rows != [] ==> Live(s) > Capacity(p.ch, s.rows[1..])
  {
    forall k | 0 <= k < |s.rows|
      ensures s.rows[k] < |p.ch.factors|
    {
      assert GoodRow(p.ch, s.rows, s.cols, k);
    }
    TailLive(p, s);
  }

  lemma MoreRowsMoreLive(p: Params, a: Meta, b: Meta)
    requires ValidParams(p) && Tail(p, a) && Tail(p, b) && |b.rows| < |a.rows|
    ensures Live(b) < Live(a)
  {
    TailBounds(p, a);
    TailBounds(p, b);
    LongerSuffix(p.ch, BootRows(p), a.rows, b.rows);
  }

  lemma LongerSuffix(ch: Chain, full: seq<nat>, a: seq<nat>, b: seq<nat>)
    requires ValidChain(ch) && forall k :: 0 <= k < |a| ==> a[k] < |ch.factors|
    requires |b| < |a| <= |full| && a == full[|full| - |a|..] && b == full[|full| - |b|..]
    ensures forall k :: 0 <= k < |b| ==> b[k] < |ch.factors|
    ensures Capacity(ch, b) <= Capacity(ch, a[1..])
  {
    SuffixOfSuffix(full, a, b);
    CapacityGrows(ch, a[1..], |a| - |b| - 1);
  }

  lemma RowWithin(p: Params, a: Meta, b: Meta, k: nat, j: nat)
    requires ValidParams(p) && Tail(p, a) && Tail(p, b) && Live(a) <= Live(b)
    requires k < |a.rows| <= |b.rows| && j < |b.rows| && j - k == |b.rows| - |a.rows| && b.rows[j] == a.rows[k]
    ensures ColsWithin(a.cols[k], b.cols[j])
  {
    if j > 0 {
      assert FullRow(p.ch, b, j);
      FullRowWithin(p.ch, a, b, k, j);
    } else {
      FirstRowWithin(p, a, b);
    }
  }

  lemma FullRowWithin(ch: Chain, a: Meta, b: Meta, k: nat, j: nat)
    requires ValidChain(ch) && Good(ch, a) && Good(ch, b) && k < |a.rows| && j < |b.rows| && a.rows[k] == b.rows[j]
    requires Start(b.cols[j]) == 0
    ensures ColsWithin(a.cols[k], b.cols[j])
  {
    assert GoodRow(ch, a.rows, a.cols, k) && GoodRow(ch, b.rows, b.cols, j);
  }

  lemma FirstRowWithin(p: Params, a: Meta, b: Meta)
    requires ValidParams(p) && Tail(p, a) && Tail(p, b) && a.rows != [] && |a.rows| == |b.rows| && Live(a) <= Live(b)
    ensures ColsWithin(a.cols[0], b.cols[0])
  {
    assert GoodRow(p.ch, a.rows, a.cols, 0) && GoodRow(p.ch, b.rows, b.cols, 0);
    TailLive(p, a);
    TailLive(p, b);
    assert a.rows == b.rows;
  }

  /** A tail with no more live columns than another is contained in it. */
  lemma TailsCompare(p: Params, a: Meta, b: Meta)
    requires ValidParams(p) && Tail(p, a) && Tail(p, b) && Live(a) <= Live(b)
    ensures Subset(a, b)
  {
    if |b.rows| < |a.rows| { MoreRowsMoreLive(p, a, b); }
    forall k | 0 <= k < |a.rows|
      ensures a.rows[k] in b.rows && ColsWithin(a.cols[k], b.cols[IndexOf(b.rows, a.rows[k])])
    {
      var j := k + |b.rows| - |a.rows|;
      assert b.rows[j] == a.rows[k];
      IndexInDistinct(b.rows, j);
      RowWithin(p, a, b, k, j);
    }
  }

  /** A join of two tails never fails while rows are left; it yields the input with fewer live columns. */
  lemma TailsJoin(p: Params, a: Meta, b: Meta)
    requires ValidParams(p) && Tail(p, a) && Tail(p, b) && Live(a) > 0 && Live(b) > 0
    ensures Subset(a, b) || Subset(b, a)
    ensures Adjusted(a, b).Some? && Live(Adjusted(a, b).value) == if Live(a) <= Live(b) then Live(a) else Live(b)
  {
    if Live(a) <= Live(b) {
      TailsCompare(p, a, b);
    } else {
      TailsCompare(p, b, a);
      if Subset(a, b) { MutualSubset(p, a, b); }
    }
  }

  lemma MutualSubset(p: Params, a: Meta, b: Meta)
    requires ValidParams(p) && Tail(p, a) && Tail(p, b) && a.rows != [] && b.rows != [] && Subset(a, b) && Subset(b, a)
    ensures Live(a) == Live(b)
  {
    if |a.rows| < |b.rows| { FirstRowMissing(p, b, a); }
    if |b.rows| < |a.rows| { FirstRowMissing(p, a, b); }
    assert a.rows == b.rows;
    SameStart(p.ch, a, b);
    TailLive(p, a);
    TailLive(p, b);
  }

  lemma SameStart(ch: Chain, a: Meta, b: Meta)
    requires ValidChain(ch) && Good(ch, a) && Good(ch, b) && a.rows == b.rows != [] && Subset(a, b) && Subset(b, a)
    ensures Start(a.cols[0]) == Start(b.cols[0])
  {
    IndexInDistinct(a.rows, 0);
    assert GoodRow(ch, a.rows, a.cols, 0) && GoodRow(ch, b.rows, b.cols, 0);
    var x, y := a.cols[0], b.cols[0];
    assert ColsWithin(x, y) && ColsWithin(y, x);
    assert x == y;
  }

  lemma FirstRowMissing(p: Params, a: Meta, b: Meta)
    requires ValidParams(p) && Tail(p, a) && Tail(p, b) && |b.rows| < |a.rows|
    ensures a.rows[0] !in b.rows
  {
    var d := |a.rows| - |b.rows|;
    forall k | 0 <= k < |b.rows|
      ensures b.rows[k] != a.rows[0]
    {
      assert b.rows[k] == a.rows[k + d];
    }
  }

  /** A drop from the first row of a tail leaves a tail. */
  lemma DropKeepsTail(p: Params, s: Meta, n: nat, t: Meta)
    requires ValidParams(p) && Tail(p, s) && s.rows != [] && 1 <= n <= LiveCount(s.cols[0])
    requires t == Dropped(p.ch, s, 0, n)
    ensures Tail(p, t) && Live(t) == Live(s) - n
  {
    DropKeepsGood(p.ch, s, 0, n);
    GoodIsFormed(p.ch, t);
    DropRemovesLive(p.ch, s, 0, n, None);
    if n == LiveCount(s.cols[0]) {
      SuffixRest(BootRows(p), s.rows);
      assert t.rows == s.rows[1..];
    }
    DropKeepsFull(p, s, n, t);
  }

  lemma DropKeepsFull(p: Params, s: Meta, n: nat, t: Meta)
    requires ValidParams(p) && Tail(p, s) && s.rows != [] && 1 <= n <= LiveCount(s.cols[0])
    requires t == Dropped(p.ch, s, 0, n) && Good(p.ch, t)
    ensures forall k :: 1 <= k < |t.rows| ==> FullRow(p.ch, t, k)
  {
    var whole := n == LiveCount(s.cols[0]);
    forall k | 1 <= k < |t.rows|
      ensures FullRow(p.ch, t, k)
    {
      assert FullRow(p.ch, s, if whole then k + 1 else k);
    }
  }

  /** Without a budget, a rescale keeps tails and fails iff nothing is live. */
  lemma RescaleKeepsTail(p: Params, defaultUp: real, s: Meta, with: bool, up: Option<real>)
    requires ValidParams(p) && Tail(p, s)
    ensures var r := Rescaled(p.ch, defaultUp, s, with, None, up);
      (r.None? <==> with && Live(s) == 0) &&
      (r.Some? ==> Tail(p, r.value) && Live(r.value) == if with then Live(s) - 1 else Live(s))
  {
    var u := UpOf(p.ch, defaultUp, s, with, None, up);
    ScaledTail(p, s, ScaledUp(s, u));
    if with { RescaleDropsFirst(p, defaultUp, s, up, u, ScaledUp(s, u)); }
  }

  lemma RescaleDropsFirst(p: Params, defaultUp: real, s: Meta, up: Option<real>, u: real, t: Meta)
    requires ValidParams(p) && Tail(p, s) && u == UpOf(p.ch, defaultUp, s, true, None, up) && t == ScaledUp(s, u)
    requires Tail(p, t)
    ensures var r := Rescaled(p.ch, defaultUp, s, true, None, up);
      (r.None? <==> Live(s) == 0) && (r.Some? ==> Tail(p, r.value) && Live(r.value) == Live(s) - 1)
  {
    TailAscends(p, s);
    AscendingIsRight(s, Rescale(true, None, up));
    RescaledMeaning(p.ch, defaultUp, s, None, up, Rescaled(p.ch, defaultUp, s, true, None, up));
    if s.rows != [] {
      assert Chosen(s.rows, None, 0) == Some(0);
      RescaledInPlace(p.ch, defaultUp, s, None, up, 0, u, t);
      DropKeepsTail(p, t, 1, Dropped(p.ch, t, 0, 1));
    }
  }

  lemma ScaledTail(p: Params, s: Meta, t: Meta)
    requires ValidParams(p) && Tail(p, s) && t.rows == s.rows && t.cols == s.cols
    ensures Tail(p, t) && Live(t) == Live(s)
  {
    forall k | 1 <= k < |t.rows|
      ensures FullRow(p.ch, t, k)
    {
      assert FullRow(p.ch, s, k);
    }
  }

  lemma TailIsFormed(p: Params, s: Meta)
    requires ValidParams(p) && Tail(p, s)
    ensures ValidChain(p.ch) && Formed(p.ch, s)
  {}

  lemma {:induction false} LevelsKeepTail(p: Params, s: Meta, n: nat)
    requires ValidParams(p) && Tail(p, s)
    ensures var r := LevelsDown(p.ch, s, n, None);
      (r.Some? <==> n <= Live(s)) && (r.Some? ==> Tail(p, r.value) && Live(r.value) == Live(s) - n)
    decreases n
  {
    hide *;
    TailIsFormed(p, s);
    if n == 0 {
      NoLevels(p.ch, s, None);
    } else {
      var r := Rescaled(p.ch, 1.0, s, true, None, None);
      RescaleKeepsTail(p, 1.0, s, true, None);
      LevelsStep(p.ch, s, n, None, r);
      if r.Some? { LevelsKeepTail(p, r.value, n - 1); }
    }
  }

  lemma InitIsTail(p: Params)
    requires ValidParams(p) && !(p.bootstrapping && p.slim)
    ensures InChain(p.ch, InitRows(p))
    ensures Tail(p, FreshState(p)) && Live(FreshState(p)) == Capacity(p.ch, InitRows(p))
  {
    InitRowsFacts(p);
    InitRowsAreLast(p);
    FullIsTail(p, InitRows(p), p.freshScale);
  }

  lemma InitRowsAreLast(p: Params)
    requires ValidParams(p) && !(p.bootstrapping && p.slim)
    ensures SuffixOf(BootRows(p), InitRows(p))
  {
    var rows := PipelineRows(p.ch);
    var j := if p.bootstrapping && p.numInit.Some? then |rows| - p.numInit.value else 0;
    assert rows[0..] == rows;
    assert (rows + BaseRows(p.ch))[j..] == rows[j..] + BaseRows(p.ch);
    if !p.bootstrapping { assert BaseRows(p.ch) == [] && StcRows(p.ch) == []; }
  }

  /** A bootstrap restores every level of the pipeline, the base and, if it is slim, the StC rows. */
  lemma BootIsTail(p: Params, scale: real)
    requires ValidParams(p)
    ensures Tail(p, BootState(p, scale)) && Live(BootState(p, scale)) == BootLevels(p)
  {
    BootRowsFacts(p);
    FullIsTail(p, BootRows(p), scale);
  }

  // ----- circuits without row budgets -----

  /** No row budgets, and explicit modswitches only on the first active row. */
  predicate Plain(c: Circuit) {
    match c
    case Fresh => true
    case Unary(step, d) => Plain(d) && (step.Rescale? ==> step.budget.None?) && (step.Switch? ==> step.row == 0)
    case Down(_, budget, d) => budget.None? && Plain(d)
    case Boot(_, d) => true
    case Add(a, b) => Plain(a) && Plain(b)
    case Mul(a, b, _, budget) => Plain(a) && Plain(b) && budget.None?
  }

  /** An explicit modswitch on the first active row keeps tails. */
  lemma SwitchKeepsTail(p: Params, s: Meta, step: Step, r: Meta)
    requires ValidParams(p) && Tail(p, s) && step.Switch? && step.row == 0 && StepFair(s, step)
    requires Apply(p.ch, p.defaultUp, s, step) == Some(r)
    ensures Tail(p, r)
  {
    TailAscends(p, s);
    AscendingIsRight(s, step);
    if s.rows != [] {
      var n := CountOf(s.cols[0], step.count);
      if n == 0 {
        DropNothing(p.ch, s, 0);
      } else {
        DropInPlace(p.ch, s, 0, n);
        DropKeepsTail(p, s, n, r);
      }
    }
  }

  /** Without budgets every reachable state is a tail of the chain, whatever the circuit. */
  lemma {:induction false} ReachableAreTails(p: Params, c: Circuit, r: Meta)
    requires ValidParams(p) && Plain(c) && Fair(p, c) && Ordered(p, c) && Infer(p, c) == Some(r)
    ensures Tail(p, r)
  {
    match c
    case Fresh => InitIsTail(p);
    case Unary(step, d) =>
      var s := Infer(p, d).value;
      ReachableAreTails(p, d, s);
      if step.Rescale? {
        RescaleKeepsTail(p, p.defaultUp, s, step.with, step.up);
      } else {
        SwitchKeepsTail(p, s, step, r);
      }
    case Down(n, budget, d) =>
      ReachableAreTails(p, d, Infer(p, d).value);
      LevelsKeepTail(p, Infer(p, d).value, n);
    case Boot(target, d) =>
      BootIsTail(p, r.scale);
    case Add(a, b) =>
      if FirstIsLower(p, a, b) { ReachableAreTails(p, a, r); } else { ReachableAreTails(p, b, r); }
    case Mul(a, b, with, budget) =>
      var s, t := Infer(p, a).value, Infer(p, b).value;
      if FirstIsLower(p, a, b) { ReachableAreTails(p, a, s); } else { ReachableAreTails(p, b, t); }
      MulKeepsTail(p, s, t, with, Adjusted(s, t).value, r);
  }

  lemma MulKeepsTail(p: Params, s: Meta, t: Meta, with: bool, low: Meta, r: Meta)
    requires ValidParams(p) && Formed(p.ch, s) && Formed(p.ch, t) && Adjusted(s, t) == Some(low) && Tail(p, low)
    requires Multiplied(p, s, t, with, None) == Some(r)
    ensures Tail(p, r)
  {
    ScaledTail(p, low, Rescoped(low, s.scale));
    RescaleKeepsTail(p, p.defaultUp, Rescoped(low, s.scale), with, Some(t.scale));
  }

  lemma InferAdd(p: Params, a: Circuit, b: Circuit, s: Meta, t: Meta)
    requires ValidParams(p) && Infer(p, a) == Some(s) && Infer(p, b) == Some(t)
    ensures Infer(p, Add(a, b)) == Adjusted(s, t)
  {
    hide Adjusted, Apply, LevelsDown, Multiplied, BootState;
  }

  /** Hence any two reachable states can be joined, at the level of the lower one. */
  lemma JoinsNeverFail(p: Params, a: Circuit, b: Circuit, s: Meta, t: Meta, r: Option<Meta>)
    requires ValidParams(p) && Plain(Add(a, b)) && Fair(p, Add(a, b)) && Ordered(p, Add(a, b))
    requires Infer(p, a) == Some(s) && Infer(p, b) == Some(t)
    requires Live(s) > 0 && Live(t) > 0 && r == Infer(p, Add(a, b))
    ensures Subset(s, t) || Subset(t, s)
    ensures r == Some(s) || r == Some(t)
    ensures Live(r.value) == if Live(s) <= Live(t) then Live(s) else Live(t)
  {
    ReachableAreTails(p, a, s);
    ReachableAreTails(p, b, t);
    TailsJoin(p, s, t);
    InferAdd(p, a, b, s, t);
  }
}
