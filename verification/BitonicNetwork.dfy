/**
 The data-oblivious sort of `bitonic_sort.py`: every stage is rotations, 0/1 masks and
 multiplications; the stages come out of two nested halving/doubling loops.
 */
module BitonicNetwork {
  import opened Bits

  type Vec = seq<real>

  datatype Stage = Stage(k: nat, j: nat)

  // ----- slot-wise tensor operations -----

  function Add(a: Vec, b: Vec): (r: Vec)
    requires |a| == |b|
  {
    seq(|a|, i requires 0 <= i < |a| => a[i] + b[i])
  }

  function Sub(a: Vec, b: Vec): (r: Vec)
    requires |a| == |b|
  {
    seq(|a|, i requires 0 <= i < |a| => a[i] - b[i])
  }

  function Mul(a: Vec, b: Vec): (r: Vec)
    requires |a| == |b|
  {
    seq(|a|, i requires 0 <= i < |a| => a[i] * b[i])
  }

  /** The cyclic index p modulo n. */
  function Wrap(p: int, n: nat): (r: nat)
    requires n >= 1
    ensures r < n
    decreases if p < 0 then n - p else p
  {
    if p < 0 then Wrap(p + n, n) else if p >= n then Wrap(p - n, n) else p
  }

  /** `torch.roll(v, shift)`: entry i moves to i + shift, cyclically. */
  function Roll(v: Vec, shift: int): (r: Vec) {
    seq(|v|, i requires 0 <= i < |v| => v[Wrap(i - shift, |v|)])
  }

  /** `_rotate(s)`: one rotation of HomRotateSum, which rolls by -s; the added axis is squeezed away. */
  function Rotate(v: Vec, s: int): (r: Vec) {
    Roll(v, -s)
  }

  // ----- one compare-exchange stage, as the source writes it -----

  /** `(arange(n) & bit) == 0`. */
  function BitClear(n: nat, bit: nat): (r: seq<bool>)
    ensures |r| == n
  {
    seq(n, i requires 0 <= i < n => And(i, bit) == 0)
  }

  function Indicator(b: bool): real { if b then 1.0 else 0.0 }

  function Mask(b: seq<bool>): (r: Vec)
    ensures |r| == |b|
  {
    seq(|b|, i requires 0 <= i < |b| => Indicator(b[i]))
  }

  /** `a & b` on boolean tensors. */
  function Both(a: seq<bool>, b: seq<bool>): (r: seq<bool>)
    requires |a| == |b|
  {
    seq(|a|, i requires 0 <= i < |a| => a[i] && b[i])
  }

  /** `~a` on boolean tensors. */
  function Not(a: seq<bool>): (r: seq<bool>) {
    seq(|a|, i requires 0 <= i < |a| => !a[i])
  }

  datatype Masks = Masks(el: Vec, eh: Vec, dl: Vec, dh: Vec)

  /** `_get_masks`, from its two bit tests. */
  function GetMasks(asc: seq<bool>, low: seq<bool>): Masks
    requires |asc| == |low|
  {
    Masks(Mask(Both(asc, low)), Mask(Both(asc, Not(low))), Mask(Both(Not(asc), low)), Mask(Both(Not(asc), Not(low))))
  }

  /** The comparator input of a stage. */
  function Differences(x: Vec, j: nat): (d: Vec) {
    Sub(Rotate(x, j), x)
  }

  /** `p1`: the comparator times the low-slot swap. */
  function LowSwap(m: Masks, d: Vec, t: Vec): (r: Vec)
    requires |m.dl| == |m.el| == |d| == |t|
  {
    Mul(t, Mul(Sub(m.dl, m.el), d))
  }

  /** `p2`: the comparator times the high-slot swap, still sitting in the low slot. */
  function HighSwap(m: Masks, d: Vec, j: nat, t: Vec): (r: Vec)
    requires |m.eh| == |m.dh| == |d| == |t|
  {
    Mul(t, Mul(Rotate(Sub(m.eh, m.dh), j), d))
  }

  /** `x_lin`. */
  function LinearPart(m: Masks, xUp: Vec, xDown: Vec, x: Vec): (r: Vec)
    requires |m.el| == |m.eh| == |m.dl| == |m.dh| == |x| == |xUp| == |xDown|
  {
    Add(Add(Mul(m.el, xUp), Mul(m.eh, xDown)), Mul(Add(m.dl, m.dh), x))
  }

  function StageMasked(x: Vec, asc: seq<bool>, low: seq<bool>, j: nat, t: Vec): (r: Vec)
    requires |t| == |x| == |asc| == |low|
    ensures |r| == |x|
  {
    var m := GetMasks(asc, low);
    var d := Differences(x, j);
    Add(Add(LinearPart(m, Rotate(x, j), Roll(x, j), x), LowSwap(m, d, t)), Roll(HighSwap(m, d, j, t), j))
  }

  /** `_Stage.forward`, with t the comparator's answer to `Differences(x, j)`. */
  function StageForward(x: Vec, k: nat, j: nat, t: Vec): (r: Vec)
    requires |t| == |x|
    ensures |r| == |x|
  {
    StageMasked(x, BitClear(|x|, k), BitClear(|x|, j), j, t)
  }

  /** Wrapping first and shifting afterwards wraps to the same slot. */
  lemma {:induction false} WrapShift(p: int, q: int, n: nat)
    requires n >= 1
    ensures Wrap(Wrap(p, n) + q, n) == Wrap(p + q, n)
    decreases if p < 0 then n - p else p
  {
    if p < 0 {
      WrapShift(p + n, q, n);
      WrapTurn(p + q, n);
    } else if p >= n {
      WrapShift(p - n, q, n);
      WrapTurn(p - n + q, n);
    }
  }

  lemma WrapTurn(p: int, n: nat)
    requires n >= 1
    ensures Wrap(p + n, n) == Wrap(p, n)
  {}

  lemma RollAt(v: Vec, shift: int, i: nat, at: nat)
    requires i < |v| && at == Wrap(i - shift, |v|)
    ensures at < |v| && |Roll(v, shift)| == |v| && Roll(v, shift)[i] == v[at]
  {}

  lemma MaskEntry(asc: seq<bool>, low: seq<bool>, i: nat)
    requires |asc| == |low| && i < |asc|
    ensures var m := GetMasks(asc, low);
      m.el[i] == Indicator(asc[i] && low[i]) && m.eh[i] == Indicator(asc[i] && !low[i]) &&
      m.dl[i] == Indicator(!asc[i] && low[i]) && m.dh[i] == Indicator(!asc[i] && !low[i])
  {}

  lemma LinearEntry(asc: seq<bool>, low: seq<bool>, xUp: Vec, xDown: Vec, x: Vec, i: nat)
    requires |asc| == |low| == |x| == |xUp| == |xDown| && i < |x|
    ensures LinearPart(GetMasks(asc, low), xUp, xDown, x)[i] ==
      if !asc[i] then x[i] else if low[i] then xUp[i] else xDown[i]
  {
    MaskEntry(asc, low, i);
  }

  lemma LowSwapEntry(asc: seq<bool>, low: seq<bool>, d: Vec, t: Vec, i: nat)
    requires |asc| == |low| == |d| == |t| && i < |d|
    ensures LowSwap(GetMasks(asc, low), d, t)[i] ==
      if !low[i] then 0.0 else if asc[i] then -(t[i] * d[i]) else t[i] * d[i]
  {
    MaskEntry(asc, low, i);
  }

  lemma HighSwapEntry(asc: seq<bool>, low: seq<bool>, d: Vec, j: nat, t: Vec, i: nat, dn: nat)
    requires |asc| == |low| == |d| == |t| && i < |d| && dn == Wrap(i - j, |d|)
    ensures HighSwap(GetMasks(asc, low), d, j, t)[dn] ==
      if low[i] then 0.0 else if asc[i] then t[dn] * d[dn] else -(t[dn] * d[dn])
  {
    hide Roll;
    MaskEntry(asc, low, i);
    WrapShift(i - j, j, |d|);
    var m := GetMasks(asc, low);
    var back: int := 0 - j as int;
    RollAt(Sub(m.eh, m.dh), back, dn, i);
  }

  /** Slot i of the sum of the three parts of a stage. */
  lemma SumEntry(lin: Vec, p1: Vec, p2: Vec, j: nat, i: nat, dn: nat, a: real, b: real, c: real)
    requires |lin| == |p1| == |p2| && i < |lin| && dn == Wrap(i - j, |lin|)
    requires lin[i] == a && p1[i] == b && p2[dn] == c
    ensures Add(Add(lin, p1), Roll(p2, j))[i] == a + b + c
  {
    RollAt(p2, j, i, dn);
  }

  /** Slot i of a stage output, by the two mask bits of i; up and dn are the slots the rotations read, td and tdDown
      the comparator's answers times the differences there. */
  lemma Entry(x: Vec, asc: seq<bool>, low: seq<bool>, j: nat, t: Vec, i: nat, up: nat, dn: nat, td: real, tdDown: real)
    requires |x| == |t| == |asc| == |low| && i < |x| && up == Wrap(i + j, |x|) && dn == Wrap(i - j, |x|)
    requires td == t[i] * Differences(x, j)[i] && tdDown == t[dn] * Differences(x, j)[dn]
    ensures StageMasked(x, asc, low, j, t)[i] ==
        if low[i] then if asc[i] then x[up] - td else x[i] + td
        else if asc[i] then x[dn] + tdDown else x[i] - tdDown
  {
    hide *;
    var d, lin, p1, p2 := StageParts(x, asc, low, j, t, i);
    LinearAt(x, asc, low, j, i, up, dn, lin);
    LowAt(asc, low, d, t, i, td, p1);
    HighAt(asc, low, d, j, t, i, dn, tdDown, p2);
    SumEntry(lin, p1, p2, j, i, dn, lin[i], p1[i], p2[dn]);
    CombineParts(asc[i], low[i], lin[i], p1[i], p2[dn], x[i], x[up], x[dn], td, tdDown);
  }

  /** A stage as the sum of its linear part and the two swaps. */
  lemma StageParts(x: Vec, asc: seq<bool>, low: seq<bool>, j: nat, t: Vec, i: nat)
    returns (d: Vec, lin: Vec, p1: Vec, p2: Vec)
    requires |x| == |t| == |asc| == |low| && i < |x|
    ensures d == Differences(x, j) && |d| == |lin| == |p1| == |p2| == |x|
    ensures lin == LinearPart(GetMasks(asc, low), Rotate(x, j), Roll(x, j), x)
    ensures p1 == LowSwap(GetMasks(asc, low), d, t) && p2 == HighSwap(GetMasks(asc, low), d, j, t)
    ensures StageMasked(x, asc, low, j, t)[i] == Add(Add(lin, p1), Roll(p2, j))[i]
  {
    var m := GetMasks(asc, low);
    d := Differences(x, j);
    lin, p1, p2 := LinearPart(m, Rotate(x, j), Roll(x, j), x), LowSwap(m, d, t), HighSwap(m, d, j, t);
  }

  lemma LowAt(asc: seq<bool>, low: seq<bool>, d: Vec, t: Vec, i: nat, td: real, p1: Vec)
    requires |asc| == |low| == |d| == |t| == |p1| && i < |d| && td == t[i] * d[i]
    requires p1 == LowSwap(GetMasks(asc, low), d, t)
    ensures p1[i] == if !low[i] then 0.0 else if asc[i] then -td else td
  {
    LowSwapEntry(asc, low, d, t, i);
  }

  lemma HighAt(asc: seq<bool>, low: seq<bool>, d: Vec, j: nat, t: Vec, i: nat, dn: nat, td: real, p2: Vec)
    requires |asc| == |low| == |d| == |t| == |p2| && i < |d| && dn == Wrap(i - j, |d|) && td == t[dn] * d[dn]
    requires p2 == HighSwap(GetMasks(asc, low), d, j, t)
    ensures p2[dn] == if low[i] then 0.0 else if asc[i] then td else -td
  {
    HighSwapEntry(asc, low, d, j, t, i, dn);
  }

  lemma LinearAt(x: Vec, asc: seq<bool>, low: seq<bool>, j: nat, i: nat, up: nat, dn: nat, lin: Vec)
    requires |x| == |asc| == |low| && i < |x| && up == Wrap(i + j, |x|) && dn == Wrap(i - j, |x|)
    requires lin == LinearPart(GetMasks(asc, low), Rotate(x, j), Roll(x, j), x)
    ensures |lin| == |x| && lin[i] == if !asc[i] then x[i] else if low[i] then x[up] else x[dn]
  {
    var back: int := 0 - j as int;
    RollAt(x, back, i, up);
    RollAt(x, j, i, dn);
    LinearEntry(asc, low, Rotate(x, j), Roll(x, j), x, i);
  }

  /** The three masked parts of one slot add up to one of the four cases. */
  lemma CombineParts(asc: bool, low: bool, lin: real, p1: real, p2: real, x: real, xUp: real, xDown: real, td: real,
          tdDown: real)
    requires lin == if !asc then x else if low then xUp else xDown
    requires p1 == if !low then 0.0 else if asc then -td else td
    requires p2 == if low then 0.0 else if asc then tdDown else -tdDown
    ensures lin + p1 + p2 ==
      if low then if asc then xUp - td else x + td
      else if asc then xDown + tdDown else x - tdDown
  {}

  /** What a stage writes to the low or high slot of a pair holding a (low slot) and b (high slot), when the
      comparator's answer times b - a is td. */
  function PairOutput(asc: bool, low: bool, a: real, b: real, td: real): real {
    if low == asc then b - td else a + td
  }

  lemma PairDifference(x: Vec, j: nat, lo: nat)
    requires lo + j < |x|
    ensures Differences(x, j)[lo] == x[lo + j] - x[lo]
  {
    var back: int := 0 - j as int;
    RollAt(x, back, lo, lo + j);
  }

  lemma SameProduct(a: real, b: real, a2: real, b2: real)
    requires a == a2 && b == b2
    ensures a * b == a2 * b2
  {}

  lemma PairProduct(x: Vec, j: nat, t: Vec, lo: nat, d: real, td: real)
    requires |x| == |t| && lo + j < |x| && d == x[lo + j] - x[lo] && td == t[lo] * d
    ensures t[lo] * Differences(x, j)[lo] == td
  {
    PairDifference(x, j, lo);
    SameProduct(t[lo], Differences(x, j)[lo], t[lo], d);
  }

  lemma LowPairEntry(x: Vec, asc: seq<bool>, low: seq<bool>, j: nat, t: Vec, lo: nat, td: real)
    requires |x| == |t| == |asc| == |low| && lo + j < |x| && low[lo] && td == t[lo] * Differences(x, j)[lo]
    ensures StageMasked(x, asc, low, j, t)[lo] == PairOutput(asc[lo], true, x[lo], x[lo + j], td)
  {
    var dn := Wrap(lo - j, |x|);
    Entry(x, asc, low, j, t, lo, lo + j, dn, td, t[dn] * Differences(x, j)[dn]);
  }

  lemma HighPairEntry(x: Vec, asc: seq<bool>, low: seq<bool>, j: nat, t: Vec, lo: nat, hi: nat, td: real)
    requires |x| == |t| == |asc| == |low| && hi == lo + j < |x| && !low[hi] && td == t[lo] * Differences(x, j)[lo]
    ensures StageMasked(x, asc, low, j, t)[hi] == PairOutput(asc[hi], false, x[lo], x[hi], td)
  {
    Entry(x, asc, low, j, t, hi, Wrap(hi + j, |x|), lo, t[hi] * Differences(x, j)[hi], td);
  }

  lemma StagePair(x: Vec, k: nat, j: nat, t: Vec, lo: nat, i: nat, asc: bool, low: bool, d: real, td: real)
    requires |x| == |t| && lo + j < |x| && i == (if low then lo else lo + j)
    requires BitClear(|x|, k)[i] == asc && BitClear(|x|, j)[i] == low
    requires d == x[lo + j] - x[lo] && td == t[lo] * d
    ensures StageForward(x, k, j, t)[i] == PairOutput(asc, low, x[lo], x[lo + j], td)
  {
    PairProduct(x, j, t, lo, d, td);
    if low {
      LowPairEntry(x, BitClear(|x|, k), BitClear(|x|, j), j, t, lo, td);
    } else {
      HighPairEntry(x, BitClear(|x|, k), BitClear(|x|, j), j, t, lo, i, td);
    }
  }

  lemma BitClearIsLow(n: nat, e: nat, i: nat)
    requires i < n
    ensures BitClear(n, Pow2(e))[i] == Low(i, e)
  {
    AndIsBit(i, e);
  }

  /** The lower slot of the pair of i. */
  function PairLow(i: nat, e: nat): (lo: nat) {
    PartnerFacts(i, e);
    if Low(i, e) then i else Partner(i, e)
  }

  lemma PairSlots(i: nat, e: nat, m: nat)
    requires e < m && i < Pow2(m)
    ensures var lo := PairLow(i, e); var hi := lo + Pow2(e);
      hi < Pow2(m) && Low(lo, e) && hi == Partner(lo, e) && i == if Low(i, e) then lo else hi
  {
    PartnerFacts(i, e);
    PartnerInRange(i, e, m);
  }

  lemma PairBits(n: nat, f: nat, e: nat, m: nat, i: nat, k: nat, j: nat, lo: nat)
    requires n == Pow2(m) && e < m && i < n && k == Pow2(f) && j == Pow2(e) && lo == PairLow(i, e)
    ensures lo + j < n && i == (if Low(i, e) then lo else lo + j)
    ensures BitClear(n, k)[i] == Low(i, f) && BitClear(n, j)[i] == Low(i, e)
  {
    PairSlots(i, e, m);
    BitClearIsLow(n, f, i);
    BitClearIsLow(n, e, i);
  }

  /** One stage at distance j = 2^e in phase k = 2^f touches only pairs that differ in bit e; what it moves is the
      lower slot's answer t[lo] times the difference. */
  lemma StageEntry(x: Vec, f: nat, e: nat, m: nat, t: Vec, i: nat, k: nat, j: nat, lo: nat, hi: nat, d: real, td: real)
    requires |x| == |t| == Pow2(m) && e < m && i < |x|
    requires k == Pow2(f) && j == Pow2(e) && lo == PairLow(i, e) && hi == lo + j < |x|
    requires d == x[hi] - x[lo] && td == t[lo] * d
    ensures StageForward(x, k, j, t)[i] == PairOutput(Low(i, f), Low(i, e), x[lo], x[hi], td)
  {
    PairBits(|x|, f, e, m, i, k, j, lo);
    StagePair(x, k, j, t, lo, i, Low(i, f), Low(i, e), d, td);
  }

  // ----- the schedule: the k/j loops of _BitonicSort.__init__ -----

  /** Stages of one k-phase, from distance j down. */
  function Phase(k: nat, j: nat): seq<Stage> {
    if j == 0 then [] else [Stage(k, j)] + Phase(k, j / 2)
  }

  function Schedule(k: nat, n: nat): seq<Stage>
    requires k >= 1
    decreases n + 1 - k
  {
    if k > n then [] else Phase(k, k / 2) + Schedule(2 * k, n)
  }

  method BuildStages(n: nat) returns (stages: seq<Stage>)
    ensures stages == Schedule(2, n)
  {
    stages := [];
    var k: nat := 2;
    while k <= n
      invariant k >= 2
      invariant stages + Schedule(k, n) == Schedule(2, n)
      decreases n + 1 - k
    {
      var j: nat := k / 2;
      ghost var before := stages;
      while j > 0
        invariant stages + Phase(k, j) == before + Phase(k, k / 2)
      {
        assert stages + Phase(k, j) == (stages + [Stage(k, j)]) + Phase(k, j / 2);
        stages := stages + [Stage(k, j)];
        j := j / 2;
      }
      assert stages == before + Phase(k, k / 2);
      assert before + Schedule(k, n) == stages + Schedule(2 * k, n);
      k := k * 2;
    }
  }

  // ----- the network as layers of pairs -----

  /** Distance 2^e in phase 2^f. */
  datatype Layer = Layer(f: nat, e: nat)

  predicate Fits(layers: seq<Layer>, m: nat) {
    forall l :: l in layers ==> l.e < l.f <= m
  }

  function PhaseLayers(f: nat, e: nat): seq<Layer> {
    if e == 0 then [] else [Layer(f, e - 1)] + PhaseLayers(f, e - 1)
  }

  /** Phases f to m, each from its widest distance down. */
  function Layers(f: nat, m: nat): seq<Layer>
    decreases m + 1 - f
  {
    if f > m then [] else PhaseLayers(f, f) + Layers(f + 1, m)
  }

  function StagesOf(layers: seq<Layer>): (r: seq<Stage>)
    ensures |r| == |layers|
  {
    seq(|layers|, i requires 0 <= i < |layers| => Stage(Pow2(layers[i].f), Pow2(layers[i].e)))
  }

  lemma {:induction false} PhaseIsLayers(f: nat, e: nat, m: nat)
    requires e <= f <= m
    ensures Phase(Pow2(f), if e == 0 then 0 else Pow2(e - 1)) == StagesOf(PhaseLayers(f, e))
    ensures Fits(PhaseLayers(f, e), m) && |PhaseLayers(f, e)| == e
    decreases e
  {
    if e > 0 {
      PhaseIsLayers(f, e - 1, m);
      assert [Stage(Pow2(f), Pow2(e - 1))] + StagesOf(PhaseLayers(f, e - 1)) == StagesOf(PhaseLayers(f, e));
    }
  }

  lemma StagesConcat(a: seq<Layer>, b: seq<Layer>)
    ensures StagesOf(a + b) == StagesOf(a) + StagesOf(b)
  {}

  lemma {:induction false} ScheduleIsLayers(f: nat, m: nat)
    requires 1 <= f <= m + 1
    ensures Schedule(Pow2(f), Pow2(m)) == StagesOf(Layers(f, m)) && Fits(Layers(f, m), m)
    decreases m + 1 - f
  {
    if f <= m {
      var k, n := Pow2(f), Pow2(m);
      Pow2Monotone(f, m);
      PhaseIsLayers(f, f, m);
      ScheduleIsLayers(f + 1, m);
      StagesConcat(PhaseLayers(f, f), Layers(f + 1, m));
      assert k / 2 == Pow2(f - 1) && 2 * k == Pow2(f + 1);
      assert Schedule(k, n) == Phase(k, k / 2) + Schedule(2 * k, n);
    } else {
      Pow2Monotone(m, f);
    }
  }

  lemma {:induction false} LayersCount(f: nat, m: nat)
    requires 1 <= f <= m + 1
    ensures 2 * |Layers(f, m)| == m * (m + 1) - f * (f - 1)
    decreases m + 1 - f
  {
    if f <= m {
      PhaseIsLayers(f, f, m);
      LayersCount(f + 1, m);
      assert (f + 1) * f == f * (f - 1) + 2 * f;
    } else {
      assert f * (f - 1) == m * (m + 1);
    }
  }

  function NumStages(m: nat): nat { m * (m + 1) / 2 }

  /** The loops build m(m+1)/2 stages for 2^m entries: for each phase k = 2, 4, .., 2^m the distances k/2, .., 1. */
  lemma LoopsBuildLayers(m: nat)
    ensures Schedule(2, Pow2(m)) == StagesOf(Layers(1, m))
    ensures Fits(Layers(1, m), m) && |Layers(1, m)| == NumStages(m)
  {
    ScheduleIsLayers(1, m);
    LayersCount(1, m);
  }

  // ----- running the network -----

  /** The comparator of stage s answers, in slot i, to the difference d. A clear polynomial ignores s and i;
      a noisy one need not. */
  type Comparator = (nat, nat, real) -> real

  function Answers(c: Comparator, s: nat, d: Vec): (t: Vec)
    ensures |t| == |d|
  {
    seq(|d|, i requires 0 <= i < |d| => c(s, i, d[i]))
  }

  /** One stage as an update of pairs: slot i reads its pair only. */
  function PairStage(x: Vec, l: Layer, m: nat, c: Comparator, s: nat): (r: Vec)
    requires |x| == Pow2(m) && l.e < l.f <= m
    ensures |r| == |x|
  {
    seq(|x|, i requires 0 <= i < |x| =>
      PairSlots(i, l.e, m);
      var lo := PairLow(i, l.e);
      var a, b := x[lo], x[lo + Pow2(l.e)];
      PairOutput(Low(i, l.f), Low(i, l.e), a, b, Moved(c(s, lo, b - a), b - a)))
  }

  /** How much of the difference d an answer t moves. */
  function Moved(t: real, d: real): real { t * d }

  lemma PairStageEntry(x: Vec, l: Layer, m: nat, c: Comparator, s: nat, i: nat, lo: nat, hi: nat, d: real, td: real)
    requires |x| == Pow2(m) && l.e < l.f <= m && i < |x| && lo == PairLow(i, l.e) && hi == lo + Pow2(l.e) < |x|
    requires d == x[hi] - x[lo] && td == Moved(c(s, lo, d), d)
    ensures PairStage(x, l, m, c, s)[i] == PairOutput(Low(i, l.f), Low(i, l.e), x[lo], x[hi], td)
  {}

  /** The rotate/mask/multiply form of a stage is the update of its pairs. */
  lemma StageIsPairStage(x: Vec, l: Layer, m: nat, c: Comparator, s: nat, k: nat, j: nat, t: Vec)
    requires |x| == Pow2(m) && l.e < l.f <= m && k == Pow2(l.f) && j == Pow2(l.e)
    requires t == Answers(c, s, Differences(x, j))
    ensures StageForward(x, k, j, t) == PairStage(x, l, m, c, s)
  {
    forall i: nat | i < |x|
      ensures StageForward(x, k, j, t)[i] == PairStage(x, l, m, c, s)[i]
    {
      PairSlots(i, l.e, m);
      ForwardEntry(x, l, m, c, s, i, k, j, t, PairLow(i, l.e), PairLow(i, l.e) + j);
    }
  }

  lemma ForwardEntry(x: Vec, l: Layer, m: nat, c: Comparator, s: nat, i: nat, k: nat, j: nat, t: Vec, lo: nat, hi: nat)
    requires |x| == Pow2(m) && l.e < l.f <= m && i < |x| && k == Pow2(l.f) && j == Pow2(l.e)
    requires lo == PairLow(i, l.e) && hi == lo + j < |x| && t == Answers(c, s, Differences(x, j))
    ensures StageForward(x, k, j, t)[i] == PairStage(x, l, m, c, s)[i]
  {
    var d := x[hi] - x[lo];
    var td := Moved(c(s, lo, d), d);
    AnswerAt(x, j, c, s, t, lo, d);
    PairStageEntry(x, l, m, c, s, i, lo, hi, d, td);
    StageEntry(x, l.f, l.e, m, t, i, k, j, lo, hi, d, td);
  }

  lemma AnswerAt(x: Vec, j: nat, c: Comparator, s: nat, t: Vec, lo: nat, d: real)
    requires lo + j < |x| && t == Answers(c, s, Differences(x, j)) && d == x[lo + j] - x[lo]
    ensures |t| == |x| && t[lo] == c(s, lo, d) && t[lo] * d == Moved(c(s, lo, d), d)
  {
    PairDifference(x, j, lo);
  }

  /** `_Stage.forward` at stage number s of the network. */
  method RunStage(x: Vec, st: Stage, c: Comparator, s: nat, ghost l: Layer, ghost m: nat) returns (r: Vec)
    requires |x| == Pow2(m) && l.e < l.f <= m && st == Stage(Pow2(l.f), Pow2(l.e))
    ensures r == PairStage(x, l, m, c, s)
  {
    var t := Answers(c, s, Differences(x, st.j));
    StageIsPairStage(x, l, m, c, s, st.k, st.j, t);
    r := StageForward(x, st.k, st.j, t);
  }

  /** Layers run in order, numbered from s. */
  function Run(x: Vec, layers: seq<Layer>, m: nat, c: Comparator, s: nat): (r: Vec)
    requires |x| == Pow2(m) && Fits(layers, m)
    ensures |r| == |x|
    decreases |layers|
  {
    if layers == [] then x else Run(PairStage(x, layers[0], m, c, s), layers[1..], m, c, s + 1)
  }

  lemma {:induction false} RunSnoc(x: Vec, init: seq<Layer>, l: Layer, m: nat, c: Comparator, s: nat)
    requires |x| == Pow2(m) && Fits(init + [l], m) && Fits(init, m) && l.e < l.f <= m
    ensures Run(x, init + [l], m, c, s) == PairStage(Run(x, init, m, c, s), l, m, c, s + |init|)
    decreases |init|
  {
    var layers := init + [l];
    if init == [] {
      assert layers[0] == l && layers[1..] == [];
    } else {
      assert layers[0] == init[0] && layers[1..] == init[1..] + [l];
      RunSnoc(PairStage(x, init[0], m, c, s), init[1..], l, m, c, s + 1);
    }
  }

  lemma RunNext(x0: Vec, layers: seq<Layer>, m: nat, c: Comparator, i: nat, x: Vec)
    requires |x0| == Pow2(m) && Fits(layers, m) && i < |layers| && x == Run(x0, layers[..i], m, c, 0)
    ensures layers[i].e < layers[i].f <= m && Run(x0, layers[..i + 1], m, c, 0) == PairStage(x, layers[i], m, c, i)
  {
    hide Run, PairStage;
    assert layers[i] in layers && layers[..i + 1] == layers[..i] + [layers[i]];
    RunSnoc(x0, layers[..i], layers[i], m, c, 0);
  }

  // ----- refreshes, and the whole forward pass -----

  /** Membership in Python's `range(start, stop, step)`. */
  predicate InRange(i: int, start: int, stop: int, step: nat)
    requires step >= 1
  {
    start <= i < stop && (i - start) % step == 0
  }

  /** Stages after which `forward` refreshes. */
  function BootAfter(bootEvery: nat, numStages: nat): (b: set<nat>)
    requires bootEvery >= 1
  {
    var start: int, stop: int := bootEvery - 1, numStages - 1;
    set i: nat | i < numStages && InRange(i, start, stop, bootEvery)
  }

  /** The refresh points are every boot_every-th stage, but never the last one. */
  lemma RefreshPoints(bootEvery: nat, numStages: nat, i: nat)
    requires bootEvery >= 1
    ensures i in BootAfter(bootEvery, numStages) <==> (i + 1) % bootEvery == 0 && i + 1 < numStages
  {
    if i < bootEvery - 1 {
      QuotientUnique(i + 1, bootEvery, 0, i + 1);
    } else {
      var a := i - (bootEvery - 1);
      assert bootEvery * (a / bootEvery + 1) == bootEvery * (a / bootEvery) + bootEvery;
      QuotientUnique(a + bootEvery, bootEvery, a / bootEvery + 1, a % bootEvery);
    }
  }

  /** `Bootstrap` leaves clear values alone. */
  function Refresh(x: Vec): Vec { x }

  /** `_BitonicSort.forward` on 2^m clear values: the stages the loops built, each in rotate/mask/multiply form. */
  method Forward(x0: Vec, ghost m: nat, bootEvery: nat, c: Comparator) returns (x: Vec)
    requires |x0| == Pow2(m) && bootEvery >= 1
    ensures Fits(Layers(1, m), m) && x == Run(x0, Layers(1, m), m, c, 0)
  {
    var stages := BuildStages(|x0|);
    var bootAfter := BootAfter(bootEvery, |stages|);
    LoopsBuildLayers(m);
    ghost var layers := Layers(1, m);
    x := x0;
    for i := 0 to |stages|
      invariant |x| == |x0| && x == Run(x0, layers[..i], m, c, 0)
    {
      var st := stages[i];
      RunNext(x0, layers, m, c, i, x);
      x := RunStage(x, st, c, i, layers[i], m);
      if i in bootAfter {
        x := Refresh(x);
      }
    }
    assert layers[..|stages|] == layers;
  }
}
