/**
 The level schedule of the bitonic sorting network: what a stage costs, and which refresh periods keep the base alive.
 */
module BitonicLevels {
  import opened Wrappers
  import Bits
  import opened ModulusChain
  import opened LevelTracing
  import opened LevelJoins
  import opened LevelTails
  import opened RefreshLevels
  import BitonicNetwork
  import PolyEval

  const DEGREE: nat := 127
  const THRESHOLD_LEVELS: nat := 7
  /** The threshold polynomial, and the product with the masked difference. */
  const STAGE_LEVELS: nat := 8

  lemma ThresholdUsesSevenLevels()
    ensures PolyEval.LevelsForDegree(DEGREE) == THRESHOLD_LEVELS && STAGE_LEVELS == THRESHOLD_LEVELS + 1
  {
    assert Bits.Pow2(6) == 64;
    assert Bits.Pow2(7) == 128;
    PolyEval.LevelsSuffice(DEGREE, 7);
    PolyEval.LevelsSuffice(DEGREE, 6);
  }

  /** The threshold times one masked difference. */
  method SwapPart(log: DropLog, p: Params, t: Meta, d: Meta) returns (r: Option<Meta>)
    requires Refreshing(p) && log.ch == p.ch && Tail(p, t) && Tail(p, d)
    modifies log`dropOrder
    ensures old(log.dropOrder) <= log.dropOrder && (r.Some? ==> Tail(p, r.value))
    ensures r.Some? && BaseRow(p.ch) !in log.dropOrder <==>
      BaseRow(p.ch) !in old(log.dropOrder) && Live(t) > 1 && Live(d) > 2
    ensures r.Some? ==> Live(d) >= 1 && Live(r.value) == Min(Live(t), Live(d) - 1) - 1
  {
    hide Tail, Live;
    var masked := OneLevel(log, p, d);
    if masked.None? {
      return None;
    }
    r := MulLevels(log, p, t, masked.value);
  }

  /** The part of the sum that is linear in the input: three masked rotations. */
  method LinearPart(log: DropLog, p: Params, x: Meta) returns (r: Option<Meta>)
    requires Refreshing(p) && log.ch == p.ch && Tail(p, x)
    modifies log`dropOrder
    ensures old(log.dropOrder) <= log.dropOrder && (r.Some? ==> Tail(p, r.value) && Live(r.value) == Live(x) - 1)
    ensures r.Some? && BaseRow(p.ch) !in log.dropOrder <==> BaseRow(p.ch) !in old(log.dropOrder) && Live(x) > 1
  {
    hide Tail, Live;
    var up := OneLevel(log, p, x);
    if up.None? {
      return None;
    }
    var down := OneLevel(log, p, x);
    r := Sum(p, up.value, down.value);
    if r.None? {
      return;
    }
    var keep := OneLevel(log, p, x);
    r := Sum(p, r.value, keep.value);
  }

  /** `HomAdd` and `HomSub`. */
  method Sum(p: Params, a: Meta, b: Meta) returns (r: Option<Meta>)
    requires Refreshing(p) && Tail(p, a) && Tail(p, b)
    ensures r == Adjusted(a, b) && (r.None? <==> Live(a) == 0 || Live(b) == 0)
    ensures r.Some? ==> Tail(p, r.value) && Live(r.value) == Min(Live(a), Live(b))
  {
    JoinLevels(p, a, b);
    r := Adjusted(a, b);
  }

  /** `_Stage.forward`, whose rotations cost no level: it costs eight levels, and keeps the base iff it is given
      more. */
  method RunStage(log: DropLog, p: Params, x: Meta) returns (r: Option<Meta>)
    requires Refreshing(p) && log.ch == p.ch && Tail(p, x)
    modifies log`dropOrder
    ensures old(log.dropOrder) <= log.dropOrder && (r.Some? ==> Tail(p, r.value))
    ensures r.Some? && BaseRow(p.ch) !in log.dropOrder <==>
      BaseRow(p.ch) !in old(log.dropOrder) && Live(x) > STAGE_LEVELS
    ensures r.Some? ==> Live(r.value) == Live(x) - STAGE_LEVELS
  {
    hide Tail, Live, Refreshing, BaseRow;
    var d := Sum(p, x, x);
    if d.None? {
      return None;
    }
    var t := PolyLevels(log, p, d.value, THRESHOLD_LEVELS);
    if t.None? {
      return None;
    }
    var p1 := SwapPart(log, p, t.value, d.value);
    if p1.None? {
      return None;
    }
    var p2 := SwapPart(log, p, t.value, d.value);
    if p2.None? {
      return None;
    }
    var linear := LinearPart(log, p, x);
    if linear.None? {
      return None;
    }
    r := Sum(p, linear.value, p1.value);
    if r.None? {
      return;
    }
    r := Sum(p, r.value, p2.value);
  }

  /** `boot_after`; None for a step of 0, which `range` refuses. A negative step counts down from below the last stage,
      so that nothing is in it. */
  function RefreshAfter(bootEvery: int, stages: nat): (r: Option<set<nat>>)
    ensures r.None? <==> bootEvery == 0
  {
    if bootEvery == 0 then None
    else if bootEvery < 0 then Some({})
    else Some(BitonicNetwork.BootAfter(bootEvery, stages))
  }

  /** The longest run of stages without a refresh. */
  function LongestRun(bootEvery: int, stages: nat): nat {
    if bootEvery > 0 then Min(bootEvery, stages) else stages
  }

  /** How many stages have run since the last refresh when stage i is to start. */
  function SinceRefresh(bootEvery: int, i: nat): nat
    requires bootEvery != 0
  {
    if bootEvery > 0 then i % bootEvery else i
  }

  /** The base has been dropped before stage i. */
  predicate Lost(levels: nat, bootEvery: int, i: nat) { STAGE_LEVELS * LongestRun(bootEvery, i) > levels }

  lemma LongestRunNext(bootEvery: int, i: nat)
    requires bootEvery != 0
    ensures LongestRun(bootEvery, i + 1) ==
            if SinceRefresh(bootEvery, i) + 1 > LongestRun(bootEvery, i) then SinceRefresh(bootEvery, i) + 1
            else LongestRun(bootEvery, i)
    ensures SinceRefresh(bootEvery, i + 1) ==
            if bootEvery > 0 && (i + 1) % bootEvery == 0 then 0 else SinceRefresh(bootEvery, i) + 1
  {
    if bootEvery > 0 {
      Bits.NextMod(i, bootEvery);
      if i < bootEvery { Bits.QuotientUnique(i, bootEvery, 0, i); }
    }
  }

  lemma NothingLost(levels: nat, bootEvery: int)
    requires bootEvery != 0
    ensures !Lost(levels, bootEvery, 0) && SinceRefresh(bootEvery, 0) == 0
  {}

  lemma LostStaysLost(levels: nat, bootEvery: int, i: nat, stages: nat)
    requires Lost(levels, bootEvery, i) && i <= stages
    ensures Lost(levels, bootEvery, stages)
  {}

  /** What a stage does to the base. */
  lemma StageLoses(levels: nat, bootEvery: int, i: nat, live: int)
    requires bootEvery != 0
    requires Lost(levels, bootEvery, i) || live == levels + 1 - STAGE_LEVELS * SinceRefresh(bootEvery, i)
    ensures !Lost(levels, bootEvery, i + 1) <==> !Lost(levels, bootEvery, i) && live > STAGE_LEVELS
  {
    LongestRunNext(bootEvery, i);
  }

  /** What stage i and the refresh after it leave for stage i + 1. */
  lemma NextStageHas(levels: nat, bootEvery: int, i: nat, live: int, stages: nat, refreshed: bool)
    requires bootEvery != 0 && i + 1 < stages && live == levels + 1 - STAGE_LEVELS * SinceRefresh(bootEvery, i)
    requires refreshed <==> i in RefreshAfter(bootEvery, stages).value
    ensures (if refreshed then levels + 1 else live - STAGE_LEVELS) ==
            levels + 1 - STAGE_LEVELS * SinceRefresh(bootEvery, i + 1)
  {
    LongestRunNext(bootEvery, i);
    if bootEvery > 0 { BitonicNetwork.RefreshPoints(bootEvery, stages, i); }
  }

  /** The loop of `_BitonicSort.forward` over its stages. */
  method RunStages(log: DropLog, p: Params, x0: Meta, bootEvery: int, stages: nat, bootAfter: set<nat>,
          ghost levels: nat)
    returns (r: Option<Meta>)
    requires Refreshing(p) && log.ch == p.ch && BaseRow(p.ch) !in log.dropOrder && levels == PipelineLevels(p.ch)
    requires Tail(p, x0) && Live(x0) == levels + 1 && RefreshAfter(bootEvery, stages) == Some(bootAfter)
    modifies log`dropOrder
    ensures r.Some? && BaseRow(p.ch) !in log.dropOrder <==> !Lost(levels, bootEvery, stages)
    ensures r.Some? ==> Tail(p, r.value)
  {
    hide Tail, Live, Lost, RefreshAfter, SinceRefresh;
    var x := x0;
    NothingLost(levels, bootEvery);
    TailIsFormed(p, x);
    for i := 0 to stages
      invariant Tail(p, x) && Formed(p.ch, x)
      invariant BaseRow(p.ch) in log.dropOrder <==> Lost(levels, bootEvery, i)
      invariant i < stages && !Lost(levels, bootEvery, i) ==>
        Live(x) == levels + 1 - STAGE_LEVELS * SinceRefresh(bootEvery, i)
    {
      ghost var live := Live(x);
      StageLoses(levels, bootEvery, i, live);
      var next := RunStage(log, p, x);
      if next.None? {
        LostStaysLost(levels, bootEvery, i + 1, stages);
        return None;
      }
      x := next.value;
      TailIsFormed(p, x);
      if i + 1 < stages && !Lost(levels, bootEvery, i + 1) {
        NextStageHas(levels, bootEvery, i, live, stages, i in bootAfter);
      }
      if i in bootAfter {
        RefreshedLevels(p, x.scale);
        x := BootState(p, x.scale);
      }
    }
    r := Some(x);
  }

  /** `_BitonicSort.forward` on 2^m entries: it succeeds without dropping the bootstrap base iff the longest run of
      stages without a refresh fits the pipeline levels, eight levels for each stage. */
  method Forward(log: DropLog, p: Params, m: nat, bootEvery: int) returns (r: Option<Meta>)
    requires Refreshing(p) && log.ch == p.ch && BaseRow(p.ch) !in log.dropOrder
    modifies log`dropOrder
    ensures r.Some? && BaseRow(p.ch) !in log.dropOrder <==>
      bootEvery != 0 && STAGE_LEVELS * LongestRun(bootEvery, BitonicNetwork.NumStages(m)) <= PipelineLevels(p.ch)
    ensures r.Some? ==> Tail(p, r.value)
  {
    hide Tail, Live, RefreshAfter;
    var stages := BitonicNetwork.BuildStages(Bits.Pow2(m));
    BitonicNetwork.LoopsBuildLayers(m);
    var bootAfter := RefreshAfter(bootEvery, |stages|);
    if bootAfter.None? {
      return None;
    }
    FreshLevels(p);
    r := RunStages(log, p, FreshState(p), bootEvery, |stages|, bootAfter.value, PipelineLevels(p.ch));
  }

  /** So an eighth of the levels is the longest safe period, whatever the length. */
  lemma LongestSafePeriod(levels: nat, bootEvery: int, stages: nat)
    requires bootEvery > 0
    ensures STAGE_LEVELS * LongestRun(bootEvery, stages) <= levels <==>
            bootEvery <= levels / STAGE_LEVELS || stages <= levels / STAGE_LEVELS
  {}

  const PIPELINE_LEVELS: nat := 8

  /** The example's chain has room for one stage: it needs a refresh after every stage, as it is set up to do, unless it
      sorts at most two entries. */
  lemma OneStageFits(bootEvery: int, m: nat)
    requires bootEvery != 0
    ensures STAGE_LEVELS * LongestRun(bootEvery, BitonicNetwork.NumStages(m)) <= PIPELINE_LEVELS <==>
            bootEvery == 1 || m <= 1
  {
    if m >= 2 {
      assert m * (m + 1) >= 6;
    }
  }
}
