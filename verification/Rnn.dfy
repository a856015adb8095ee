/**
 The level schedule of the recurrent example network (`rnn.py`): where it refreshes, and which refresh periods keep the
 bootstrap base alive.
 */
module Rnn {
  import opened Wrappers
  import Bits
  import opened ModulusChain
  import opened LevelTracing
  import opened LevelJoins
  import opened LevelTails
  import opened RefreshLevels
  import PolyEval

  /** Levels one timestep consumes: hh_matrix 1, tanh of degree 3 another 2. */
  const TANH_LEVELS: nat := 2
  const LEVELS_PER_STEP: nat := 3
  const TANH_DEGREE: nat := 3

  lemma TanhUsesTwoLevels()
    ensures PolyEval.LevelsForDegree(TANH_DEGREE) == TANH_LEVELS && LEVELS_PER_STEP == 1 + TANH_LEVELS
  {
    assert PolyEval.CeilLog2(2) == 1 + PolyEval.CeilLog2(1);
  }

  /** One timestep before the refresh: hh_matrix and the join with the input's share (not in step 0), then tanh. */
  method TimeStep(log: DropLog, p: Params, first: bool, hidden: Meta, x: Meta) returns (r: Option<Meta>)
    requires Refreshing(p) && log.ch == p.ch && Tail(p, hidden) && Tail(p, x)
    requires Live(x) == PipelineLevels(p.ch) && Live(hidden) <= PipelineLevels(p.ch) + 1
    requires Live(hidden) == 0 ==> BaseRow(p.ch) in log.dropOrder
    requires PipelineLevels(p.ch) == 0 ==> BaseRow(p.ch) in log.dropOrder
    modifies log`dropOrder
    ensures var h := if first then Live(x) + 1 else Live(hidden);
      (r.Some? ==> Tail(p, r.value) && Live(r.value) == h - LEVELS_PER_STEP) &&
      (r.None? ==> BaseRow(p.ch) in log.dropOrder && h < LEVELS_PER_STEP) &&
      (BaseRow(p.ch) in log.dropOrder <==> BaseRow(p.ch) in old(log.dropOrder) || h <= LEVELS_PER_STEP)
  {
    hide Tail, Live;
    var h := x;
    if !first {
      var m := OneLevel(log, p, hidden);
      if m.None? {
        return None;
      }
      JoinLevels(p, m.value, x);
      TailIsFormed(p, m.value);
      TailIsFormed(p, x);
      var sum := Adjusted(m.value, x);
      if sum.None? {
        return None;
      }
      h := sum.value;
    }
    r := PolyLevels(log, p, h, TANH_LEVELS);
  }

  /** A refresh period keeps the base alive and leaves a level for the final linear layer. */
  predicate Safe(levels: nat, period: nat, steps: nat) {
    LEVELS_PER_STEP * Min(period, steps) <= levels && (steps < period ==> LEVELS_PER_STEP * steps + 1 <= levels)
  }

  /** Before timestep i: s steps since the last refresh, `live` levels left in the hidden state, and whether the base
      has been dropped. */
  predicate Progress(levels: nat, period: nat, batch: bool, i: nat, s: nat, live: int, lost: bool) {
    s <= i && (period > 0 ==> s == i % period) &&
    (i == 0 ==> s == 0 && (lost ==> levels == 0) && live >= levels) &&
    (i > 0 ==> period > 0 && (i < period ==> s == i)) &&
    (i > 0 ==> live == levels + 1 - LEVELS_PER_STEP * s) &&
    (i > 0 ==> (lost <==> LEVELS_PER_STEP * Min(i, period) > levels)) &&
    (levels == 0 && (batch || i > 0) ==> lost) && (live == 0 ==> lost) && live <= levels + 1
  }

  lemma ProgressStart(levels: nat, period: nat, batch: bool)
    ensures Progress(levels, period, batch, 0, 0, if batch then levels else levels + 1, batch && levels == 0)
  {}

  lemma ProgressStep(levels: nat, period: nat, batch: bool, i: nat, s: nat, live: int, lost: bool, live2: int,
          lost2: bool)
    requires Progress(levels, period, batch, i, s, live, lost) && period > 0
    requires live2 == levels + 1 - (if (i + 1) % period == 0 then 0 else LEVELS_PER_STEP * (s + 1))
    requires lost2 <==> lost || LEVELS_PER_STEP * (s + 1) > levels
    ensures Progress(levels, period, batch, i + 1, (i + 1) % period, live2, lost2)
  {
    Bits.NextMod(i, period);
  }

  /** What the end of the sequence means for the final linear layer. */
  lemma ProgressEnd(levels: nat, period: nat, batch: bool, steps: nat, s: nat, live: int, lost: bool)
    requires Progress(levels, period, batch, steps, s, live, lost) && steps > 0
    ensures period > 0 && (Safe(levels, period, steps) <==> !lost && live > 1)
  {
    if steps == period { Bits.QuotientUnique(steps, period, 1, 0); }
  }

  lemma ProgressFails(levels: nat, period: nat, batch: bool, i: nat, s: nat, live: int, lost: bool, steps: nat)
    requires Progress(levels, period, batch, i, s, live, lost) && i < steps && period > 0
    requires LEVELS_PER_STEP * (s + 1) > levels
    ensures !Safe(levels, period, steps)
  {}

  /** The body of the timestep loop: the input's share, the step, and the refresh when it is due. */
  method StepAndRefresh(log: DropLog, p: Params, i: nat, batch: bool, period: nat, hidden: Meta, x: Meta,
          ghost s: nat, ghost levels: nat) returns (r: Option<Meta>)
    requires Refreshing(p) && log.ch == p.ch && Tail(p, hidden) && Tail(p, x) && levels == PipelineLevels(p.ch)
    requires Live(x) == if batch then levels else levels + 1
    requires Progress(levels, period, batch, i, s, Live(hidden), BaseRow(p.ch) in log.dropOrder)
    modifies log`dropOrder
    ensures r.None? ==> period == 0 || LEVELS_PER_STEP * (s + 1) > levels
    ensures r.Some? ==> period > 0 && Tail(p, r.value)
    ensures r.Some? ==> Live(r.value) == levels + 1 - (if (i + 1) % period == 0 then 0 else LEVELS_PER_STEP * (s + 1))
    ensures BaseRow(p.ch) in log.dropOrder <==>
      BaseRow(p.ch) in old(log.dropOrder) || LEVELS_PER_STEP * (s + 1) > levels
  {
    hide Tail, Live;
    var xi := x;
    if !batch {
      var m := OneLevel(log, p, x);
      xi := m.value;
    }
    r := TimeStep(log, p, i == 0, hidden, xi);
    if r.None? || period == 0 {
      return None;
    }
    if (i + 1) % period == 0 {
      RefreshedLevels(p, r.value.scale);
      r := Some(BootState(p, r.value.scale));
    }
  }

  /** The input, with its matrix already applied when batched. */
  method Input(log: DropLog, p: Params, batch: bool, ghost levels: nat) returns (x: Meta)
    requires Refreshing(p) && log.ch == p.ch && BaseRow(p.ch) !in log.dropOrder && levels == PipelineLevels(p.ch)
    modifies log`dropOrder
    ensures Tail(p, x) && Live(x) == if batch then levels else levels + 1
    ensures BaseRow(p.ch) in log.dropOrder <==> batch && levels == 0
  {
    hide Tail, Live;
    FreshLevels(p);
    x := FreshState(p);
    if batch {
      var m := OneLevel(log, p, x);
      x := m.value;
    }
  }

  /** `_RNN.forward`: succeeds without ever dropping the bootstrap base iff the refresh period is safe; a period of 0
      raises in the first timestep, and an empty sequence leaves nothing to classify. */
  method Forward(log: DropLog, p: Params, steps: nat, batch: bool, period: nat) returns (r: Option<Meta>)
    requires Refreshing(p) && log.ch == p.ch && BaseRow(p.ch) !in log.dropOrder
    modifies log`dropOrder
    ensures r.Some? && BaseRow(p.ch) !in log.dropOrder <==>
      steps > 0 && period > 0 && Safe(PipelineLevels(p.ch), period, steps)
    ensures r.Some? ==> Tail(p, r.value)
  {
    hide Tail, Live, Progress, Safe, PipelineLevels;
    ghost var levels, base := PipelineLevels(p.ch), BaseRow(p.ch);
    var x := Input(log, p, batch, levels);
    TailIsFormed(p, x);
    var hidden := x;
    ghost var s: nat := 0;
    ProgressStart(levels, period, batch);
    for i := 0 to steps
      invariant Tail(p, x) && Tail(p, hidden) && Formed(p.ch, x) && Formed(p.ch, hidden)
      invariant Live(x) == if batch then levels else levels + 1
      invariant Progress(levels, period, batch, i, s, Live(hidden), base in log.dropOrder)
    {
      ghost var live, lost := Live(hidden), base in log.dropOrder;
      var next := StepAndRefresh(log, p, i, batch, period, hidden, x, s, levels);
      if next.None? {
        if period > 0 { ProgressFails(levels, period, batch, i, s, live, lost, steps); }
        return None;
      }
      hidden := next.value;
      TailIsFormed(p, hidden);
      ProgressStep(levels, period, batch, i, s, live, lost, Live(hidden), base in log.dropOrder);
      s := (i + 1) % period;
    }
    if steps == 0 {
      return None;
    }
    ProgressEnd(levels, period, batch, steps, s, Live(hidden), base in log.dropOrder);
    r := OneLevel(log, p, hidden);
  }

  /** The period that the pipeline chooses, a third of the levels, is safe for every sequence as soon as the chain has
      three levels, and no longer period is safe for sequences that fill it. */
  lemma ChosenPeriod(levels: nat, steps: nat, period: nat)
    requires steps > 0
    ensures levels >= LEVELS_PER_STEP <==> levels / LEVELS_PER_STEP > 0 && Safe(levels, levels / LEVELS_PER_STEP, steps)
    ensures period > levels / LEVELS_PER_STEP && steps >= period ==> !Safe(levels, period, steps)
  {
    var third := levels / LEVELS_PER_STEP;
    if steps >= third {
      assert Min(third, steps) == third;
    } else {
      assert steps + 1 <= third;
    }
  }

  /** The example's own chain and period: for every sequence length the run keeps the base iff the chain has at least
      three levels. */
  method BuildAndTrace(log: DropLog, p: Params, steps: nat, batch: bool) returns (r: Option<Meta>)
    requires Refreshing(p) && log.ch == p.ch && BaseRow(p.ch) !in log.dropOrder && steps > 0
    modifies log`dropOrder
    ensures r.Some? && BaseRow(p.ch) !in log.dropOrder <==> PipelineLevels(p.ch) >= LEVELS_PER_STEP
  {
    var levels := PipelineLevels(p.ch);
    ChosenPeriod(levels, steps, 1);
    r := Forward(log, p, steps, batch, levels / LEVELS_PER_STEP);
  }
}
