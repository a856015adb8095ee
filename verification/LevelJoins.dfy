/**
 Joins of level states (`infer_adjust_levels_and_scale`), initial and bootstrapped states, and the scale law of whole
 circuits.
 */
module LevelJoins {
  import opened Wrappers
  import opened ModulusChain
  import opened DropConfigs
  import opened LevelTracing
  import PrimeDivisors

  // ----- the subset check -----

  /** `argmax` of the matches: the first index of a row. */
  function IndexOf(rows: seq<nat>, row: nat): (i: nat)
    requires row in rows
    ensures i < |rows| && rows[i] == row
  {
    if rows[0] == row then 0 else 1 + IndexOf(rows[1..], row)
  }

  predicate ColsWithin(x: seq<bool>, y: seq<bool>) {
    |x| == |y| && forall c :: 0 <= c < |x| && x[c] ==> y[c]
  }

  /** `_verify_rows_cols_are_subset`. */
  predicate Subset(a: Meta, b: Meta)
    requires |a.rows| == |a.cols| && |b.rows| == |b.cols|
  {
    (forall r :: r in a.rows ==> r in b.rows) &&
    forall k :: 0 <= k < |a.rows| ==> ColsWithin(a.cols[k], b.cols[IndexOf(b.rows, a.rows[k])])
  }

  predicate Holds(s: Meta, row: nat, c: nat)
    requires |s.rows| == |s.cols|
  {
    row in s.rows && c < |s.cols[IndexOf(s.rows, row)]| && s.cols[IndexOf(s.rows, row)][c]
  }

  lemma IndexInDistinct(rows: seq<nat>, k: nat)
    requires Distinct(rows) && k < |rows|
    ensures IndexOf(rows, rows[k]) == k
  {}

  /** The check holds iff every live prime of the first state is live in the second. */
  lemma SubsetMeaning(ch: Chain, a: Meta, b: Meta)
    requires ValidChain(ch) && Good(ch, a) && Good(ch, b)
    ensures Subset(a, b) <==> forall r, c :: Holds(a, r, c) ==> Holds(b, r, c)
  {
    if forall r, c :: Holds(a, r, c) ==> Holds(b, r, c) {
      forall k | 0 <= k < |a.rows|
        ensures a.rows[k] in b.rows && ColsWithin(a.cols[k], b.cols[IndexOf(b.rows, a.rows[k])])
      {
        IndexInDistinct(a.rows, k);
        assert GoodRow(ch, a.rows, a.cols, k);
        assert Holds(a, a.rows[k], |ch.factors[a.rows[k]]| - 1);
        assert GoodRow(ch, b.rows, b.cols, IndexOf(b.rows, a.rows[k]));
        forall c | 0 <= c < |a.cols[k]| && a.cols[k][c]
          ensures b.cols[IndexOf(b.rows, a.rows[k])][c]
        {
          assert Holds(a, a.rows[k], c);
        }
      }
    }
    if Subset(a, b) {
      forall r, c | Holds(a, r, c)
        ensures Holds(b, r, c)
      {
        var k := IndexOf(a.rows, r);
        assert ColsWithin(a.cols[k], b.cols[IndexOf(b.rows, a.rows[k])]);
      }
    }
  }

  /** `infer_adjust_levels_and_scale`; None where it raises (two states without order, or no active row to compare). */
  function Adjusted(a: Meta, b: Meta): (r: Option<Meta>)
    requires |a.rows| == |a.cols| && |b.rows| == |b.cols|
    ensures r.Some? ==> r.value == a || r.value == b
  {
    if a.rows == [] || b.rows == [] then None
    else if Subset(a, b) then Some(a)
    else if Subset(b, a) then Some(b)
    else None
  }

  /** A join succeeds iff one input's live primes are among the other's, and its level holds exactly the primes live in
      both. */
  lemma JoinMeaning(ch: Chain, a: Meta, b: Meta)
    requires ValidChain(ch) && Good(ch, a) && Good(ch, b) && a.rows != [] && b.rows != []
    ensures Adjusted(a, b).Some? <==>
      (forall r, c :: Holds(a, r, c) ==> Holds(b, r, c)) || (forall r, c :: Holds(b, r, c) ==> Holds(a, r, c))
    ensures Adjusted(a, b).Some? ==>
      forall r, c :: Holds(Adjusted(a, b).value, r, c) <==> Holds(a, r, c) && Holds(b, r, c)
  {
    SubsetMeaning(ch, a, b);
    SubsetMeaning(ch, b, a);
  }

  /** Drops in two different rows of one state lead to states that cannot be joined. */
  lemma DropsInTwoRowsClash(ch: Chain, s: Meta, j: nat, k: nat)
    requires ValidChain(ch) && Good(ch, s) && j < k < |s.rows| && LiveCount(s.cols[j]) >= 1 && LiveCount(s.cols[k]) >= 1
    requires Good(ch, Dropped(ch, s, j, 1)) && Good(ch, Dropped(ch, s, k, 1))
    ensures Adjusted(Dropped(ch, s, j, 1), Dropped(ch, s, k, 1)) == None
  {
    var a, b := Dropped(ch, s, j, 1), Dropped(ch, s, k, 1);
    RowsAreLive(ch, s, j);
    RowsAreLive(ch, s, k);
    DropLosesOne(ch, s, j, k);
    DropLosesOne(ch, s, k, j);
    SubsetMeaning(ch, a, b);
    SubsetMeaning(ch, b, a);
    assert Holds(a, s.rows[k], Start(s.cols[k])) && !Holds(b, s.rows[k], Start(s.cols[k]));
    assert Holds(b, s.rows[j], Start(s.cols[j])) && !Holds(a, s.rows[j], Start(s.cols[j]));
  }

  /** A drop in row j loses that row's first live column and keeps the other row's. */
  lemma DropLosesOne(ch: Chain, s: Meta, j: nat, k: nat)
    requires ValidChain(ch) && Good(ch, s) && j < |s.rows| && k < |s.rows| && j != k && LiveCount(s.cols[j]) >= 1
    requires Start(s.cols[j]) < |s.cols[j]| && Start(s.cols[k]) < |s.cols[k]| && Good(ch, Dropped(ch, s, j, 1))
    ensures !Holds(Dropped(ch, s, j, 1), s.rows[j], Start(s.cols[j]))
    ensures Holds(Dropped(ch, s, j, 1), s.rows[k], Start(s.cols[k]))
  {
    var a := Dropped(ch, s, j, 1);
    if LiveCount(s.cols[j]) == 1 {
      forall i | 0 <= i < |a.rows|
        ensures a.rows[i] != s.rows[j]
      {
        var o := if i < j then i else i + 1;
        assert a.rows[i] == s.rows[o];
        assert o != j;
      }
      var i := if k < j then k else k - 1;
      assert a.rows[i] == s.rows[k] && a.cols[i] == s.cols[k];
      IndexInDistinct(a.rows, i);
    } else {
      IndexInDistinct(a.rows, j);
      IndexInDistinct(a.rows, k);
    }
  }

  // ----- initial and bootstrapped states -----

  /** With a bootstrap a fresh ciphertext holds the last `numInit` pipeline rows (None: all), the base row, and for a
      slim bootstrap the StC rows. */
  datatype Params = Params(ch: Chain, bootstrapping: bool, slim: bool, numInit: Option<nat>, defaultUp: real,
                           freshScale: real)

  predicate ValidParams(p: Params) {
    var l := p.ch.layout;
    ValidChain(p.ch) && l.base == (if p.bootstrapping then 1 else 0) &&
    (!p.bootstrapping ==> l.cts == l.evalMod == l.stc == 0) && (p.numInit.Some? ==> p.numInit.value <= l.pipeline)
  }

  /** `get_init_rows`. */
  function InitRows(p: Params): seq<nat>
    requires ValidParams(p)
  {
    var rows := PipelineRows(p.ch);
    if !p.bootstrapping then rows
    else
      (if p.numInit.Some? then rows[|rows| - p.numInit.value..] else rows) + BaseRows(p.ch) +
      (if p.slim then StcRows(p.ch) else [])
  }

  /** The rows that `init_levels_after_bootstrap` restores. */
  function BootRows(p: Params): seq<nat> {
    PipelineRows(p.ch) + (if p.slim then StcRows(p.ch) else []) + BaseRows(p.ch)
  }

  predicate InChain(ch: Chain, rows: seq<nat>) { forall k :: 0 <= k < |rows| ==> rows[k] < |ch.factors| }

  /** Three disjoint ranges of rows of a chain. */
  lemma ThreeRanges(a: nat, n: nat, b: nat, k: nat, c: nat, l: nat, limit: nat, rows: seq<nat>)
    requires rows == Range(a, n) + Range(b, k) + Range(c, l) && a + n <= limit && b + k <= limit && c + l <= limit
    requires a + n <= b && a + n <= c && (b + k <= c || c + l <= b)
    ensures Distinct(rows) && (forall i :: 0 <= i < |rows| ==> rows[i] < limit) && (b + k <= c ==> Ascending(rows))
  {
    assert |rows| == n + k + l;
    forall i | 0 <= i < |rows|
      ensures rows[i] == if i < n then a + i else if i < n + k then b + i - n else c + i - n - k
    {
    }
  }

  lemma BootRowsFacts(p: Params)
    requires ValidParams(p)
    ensures Ascending(BootRows(p)) && Distinct(BootRows(p)) && InChain(p.ch, BootRows(p))
  {
    var l := p.ch.layout;
    var boot := l.pipeline + l.cts + l.evalMod;
    assert BootRows(p) == Range(0, l.pipeline) + Range(boot, if p.slim then l.stc else 0) + Range(boot + l.stc, l.base);
    ThreeRanges(0, l.pipeline, boot, if p.slim then l.stc else 0, boot + l.stc, l.base, |p.ch.factors|, BootRows(p));
  }

  lemma RangeTail(n: nat, k: nat)
    requires k <= n
    ensures Range(0, n)[n - k..] == Range(n - k, k)
  {}

  /** How many pipeline rows a fresh ciphertext has. */
  function InitCount(p: Params): nat {
    if p.bootstrapping && p.numInit.Some? then p.numInit.value else p.ch.layout.pipeline
  }

  lemma InitParts(p: Params, n: nat)
    requires ValidParams(p) && n == InitCount(p)
    ensures n <= p.ch.layout.pipeline
    ensures InitRows(p) == Range(p.ch.layout.pipeline - n, n) + BaseRows(p.ch) +
                           Range(StcStart(p.ch), if p.bootstrapping && p.slim then p.ch.layout.stc else 0)
  {
    RangeTail(p.ch.layout.pipeline, n);
    NoRows(StcStart(p.ch));
    NoRows(StcStart(p.ch) + p.ch.layout.stc);
    hide Range;
  }

  function StcStart(ch: Chain): nat { ch.layout.pipeline + ch.layout.cts + ch.layout.evalMod }

  lemma NoRows(lo: nat)
    ensures Range(lo, 0) == []
  {}

  /** The initial rows are different rows of the chain, and in chain order unless the bootstrap is slim. */
  lemma InitRowsFacts(p: Params)
    requires ValidParams(p)
    ensures Distinct(InitRows(p)) && InChain(p.ch, InitRows(p))
    ensures !(p.bootstrapping && p.slim) ==> Ascending(InitRows(p))
  {
    hide InitRows, Range, Distinct, Ascending;
    var l, n, stc := p.ch.layout, InitCount(p), StcStart(p.ch);
    InitParts(p, n);
    if p.bootstrapping && p.slim {
      ThreeRanges(l.pipeline - n, n, stc + l.stc, l.base, stc, l.stc, |p.ch.factors|, InitRows(p));
    } else {
      NoRows(stc);
      NoRows(stc + l.stc + l.base);
      ThreeRanges(l.pipeline - n, n, stc + l.stc, l.base, stc + l.stc + l.base, 0, |p.ch.factors|, InitRows(p));
    }
  }

  /** The initial rows of a slim bootstrap are the ones whose drops `DropConfigs` examines. */
  lemma SlimInitRows(p: Params, numInit: nat)
    requires ValidParams(p) && p.bootstrapping && p.slim
    requires numInit == if p.numInit.Some? then p.numInit.value else p.ch.layout.pipeline
    ensures InitRows(p) == SlimRows(p.ch, numInit)
  {}

  /** All primes of the given rows live. */
  function FullMeta(ch: Chain, rows: seq<nat>, scale: real): Meta
    requires ValidChain(ch) && InChain(ch, rows)
  {
    Meta(rows, seq(|rows|, k requires 0 <= k < |rows| => FullCols(ch, rows[k])), scale)
  }

  lemma FullIsGood(ch: Chain, rows: seq<nat>, scale: real)
    requires ValidChain(ch) && InChain(ch, rows) && Distinct(rows)
    ensures Good(ch, FullMeta(ch, rows, scale)) && Formed(ch, FullMeta(ch, rows, scale))
  {
    var s := FullMeta(ch, rows, scale);
    forall k | 0 <= k < |rows|
      ensures GoodRow(ch, s.rows, s.cols, k)
    {
      assert s.cols[k] == FullCols(ch, rows[k]);
    }
    GoodIsFormed(ch, s);
  }

  function FreshState(p: Params): (r: Meta)
    requires ValidParams(p)
    ensures Formed(p.ch, r)
  {
    InitRowsFacts(p);
    FullIsGood(p.ch, InitRows(p), p.freshScale);
    FullMeta(p.ch, InitRows(p), p.freshScale)
  }

  /** `init_levels_after_bootstrap`. */
  function BootState(p: Params, scale: real): (r: Meta)
    requires ValidParams(p)
    ensures Formed(p.ch, r)
  {
    BootRowsFacts(p);
    FullIsGood(p.ch, BootRows(p), scale);
    FullMeta(p.ch, BootRows(p), scale)
  }

  lemma FullHolds(ch: Chain, rows: seq<nat>, scale: real, row: nat, c: nat)
    requires ValidChain(ch) && InChain(ch, rows) && Distinct(rows)
    ensures var s := FullMeta(ch, rows, scale);
      Good(ch, s) && (Holds(s, row, c) <==> row in rows && c < |ch.factors[row]|)
  {
    FullIsGood(ch, rows, scale);
    var s := FullMeta(ch, rows, scale);
    if row in rows {
      var k := IndexOf(rows, row);
      assert s.cols[k] == FullCols(ch, row) && ValidRow(ch, row);
    }
  }

  /** A bootstrap restores every prime of the pipeline and base rows, and with a slim bootstrap of the StC rows, and no
      other. */
  lemma BootRestores(p: Params, scale: real, row: nat, c: nat)
    requires ValidParams(p) && p.bootstrapping
    ensures Good(p.ch, BootState(p, scale))
    ensures Holds(BootState(p, scale), row, c) <==>
      (row in PipelineRows(p.ch) || row in BaseRows(p.ch) || (p.slim && row in StcRows(p.ch))) &&
      c < |p.ch.factors[row]|
  {
    BootRowsFacts(p);
    FullHolds(p.ch, BootRows(p), scale, row, c);
    hide FullMeta, Good, Distinct, Ascending;
  }

  lemma InRange(lo: nat, n: nat, row: nat)
    ensures row in Range(lo, n) <==> lo <= row < lo + n
  {
    assert lo <= row < lo + n ==> Range(lo, n)[row - lo] == row;
  }

  lemma InitMembers(p: Params, row: nat)
    requires ValidParams(p)
    ensures InitCount(p) <= p.ch.layout.pipeline
    ensures row in InitRows(p) <==>
      p.ch.layout.pipeline - InitCount(p) <= row < p.ch.layout.pipeline || row in BaseRows(p.ch) ||
      (p.bootstrapping && p.slim && row in StcRows(p.ch))
  {
    hide InitRows, Range;
    var l, n, stc := p.ch.layout, InitCount(p), if p.bootstrapping && p.slim then p.ch.layout.stc else 0;
    InitParts(p, n);
    InRange(l.pipeline - n, n, row);
    InRange(StcStart(p.ch), stc, row);
    InRange(StcStart(p.ch), l.stc, row);
  }

  /** A fresh ciphertext holds the primes of its last pipeline rows, as many as are asked for, of the base rows, and
      with a slim bootstrap of the StC rows, and no other. */
  lemma FreshHolds(p: Params, row: nat, c: nat)
    requires ValidParams(p)
    ensures Good(p.ch, FreshState(p))
    ensures Holds(FreshState(p), row, c) <==>
      (p.ch.layout.pipeline - InitCount(p) <= row < p.ch.layout.pipeline || row in BaseRows(p.ch) ||
       (p.bootstrapping && p.slim && row in StcRows(p.ch))) &&
      c < |p.ch.factors[row]|
  {
    InitMembers(p, row);
    InitRowsFacts(p);
    FullHolds(p.ch, InitRows(p), p.freshScale, row, c);
    hide FullMeta, InitRows, Range, Good, Distinct, Ascending, InitCount;
  }

  // ----- circuits -----

  /** Level-affecting structure of a pipeline; ops that keep the level metadata are left out. */
  datatype Circuit =
    | Fresh
    | Unary(step: Step, c: Circuit)
    | Down(n: nat, budget: Option<set<nat>>, c: Circuit)
    | Boot(target: Option<real>, c: Circuit)
    | Add(a: Circuit, b: Circuit)
    | Mul(a: Circuit, b: Circuit, with: bool, budget: Option<set<nat>>)

  /** The level metadata that inference gives a circuit; None where inference raises. */
  function Infer(p: Params, c: Circuit): (r: Option<Meta>)
    requires ValidParams(p)
    ensures r.Some? ==> Formed(p.ch, r.value)
  {
    match c
    case Fresh => Some(FreshState(p))
    case Unary(step, d) =>
      var s := Infer(p, d);
      if s.None? then None else Apply(p.ch, p.defaultUp, s.value, step)
    case Down(n, budget, d) =>
      var s := Infer(p, d);
      if s.None? then None else LevelsDown(p.ch, s.value, n, budget)
    case Boot(target, d) =>
      var s := Infer(p, d);
      if s.None? || !p.bootstrapping then None
      else Some(BootState(p, if target.Some? then target.value else s.value.scale))
    case Add(a, b) =>
      var s, t := Infer(p, a), Infer(p, b);
      if s.None? || t.None? then None else Adjusted(s.value, t.value)
    case Mul(a, b, with, budget) =>
      var s, t := Infer(p, a), Infer(p, b);
      if s.None? || t.None? then None else Multiplied(p, s.value, t.value, with, budget)
  }

  /** `HomMul.infer_output_level_and_scale`: the lower level with the first input's scale, then a rescale that
      multiplies by the second input's scale. */
  function Multiplied(p: Params, s: Meta, t: Meta, with: bool, budget: Option<set<nat>>): (r: Option<Meta>)
    requires ValidParams(p) && Formed(p.ch, s) && Formed(p.ch, t)
    ensures r.Some? ==> Formed(p.ch, r.value)
  {
    var lower := Adjusted(s, t);
    if lower.None? then None
    else
      ScaledUpIsFormed(p.ch, lower.value, Rescoped(lower.value, s.scale));
      Rescaled(p.ch, p.defaultUp, Rescoped(lower.value, s.scale), with, budget, Some(t.scale))
  }

  function Rescoped(s: Meta, scale: real): Meta { s.(scale := scale) }

  /** A fresh ciphertext has the initial scale; a bootstrap sets the scale it is given, or keeps the one it finds. */
  lemma SourceScale(p: Params, target: Option<real>, d: Circuit, r: Meta)
    requires ValidParams(p) && Infer(p, Boot(target, d)) == Some(r)
    ensures FreshState(p).scale == p.freshScale
    ensures target.Some? ==> r.scale == target.value
    ensures target.None? ==> Infer(p, d).Some? && r.scale == Infer(p, d).value.scale
  {
    hide *;
    StartScales(p, r.scale);
    BootInfers(p, target, d);
    if target.Some? { StartScales(p, target.value); } else { StartScales(p, Infer(p, d).value.scale); }
  }

  lemma StartScales(p: Params, scale: real)
    requires ValidParams(p)
    ensures FreshState(p).scale == p.freshScale && BootState(p, scale).scale == scale
  {
    hide BootRows, InitRows;
  }

  lemma BootInfers(p: Params, target: Option<real>, d: Circuit)
    requires ValidParams(p) && Infer(p, Boot(target, d)).Some?
    ensures Infer(p, d).Some?
    ensures Infer(p, Boot(target, d)) ==
            Some(BootState(p, if target.Some? then target.value else Infer(p, d).value.scale))
  {
    hide Apply, LevelsDown, Multiplied, Adjusted, BootState, FreshState;
  }

  // ----- the scale law -----

  /** Every drop on the path through the lower inputs is right in the state it meets, down to the last bootstrap. */
  predicate Right(p: Params, c: Circuit)
    requires ValidParams(p)
  {
    match c
    case Fresh => true
    case Unary(step, d) =>
      Right(p, d) && (Infer(p, d).Some? ==> StepRight(Infer(p, d).value, step))
    case Down(n, budget, d) =>
      Right(p, d) &&
      (Infer(p, d).Some? ==> RunRight(p.ch, p.defaultUp, Infer(p, d).value, LevelSteps(n, budget)))
    case Boot(_, d) => true
    case Add(a, b) =>
      Infer(p, c).Some? ==> if FirstIsLower(p, a, b) then Right(p, a) else Right(p, b)
    case Mul(a, b, with, budget) =>
      Infer(p, c).Some? ==>
        (if FirstIsLower(p, a, b) then Right(p, a) else Right(p, b)) &&
        StepRight(Adjusted(Infer(p, a).value, Infer(p, b).value).value, Rescale(with, budget, None))
  }

  /** The join of two circuits takes the first one's level. */
  predicate FirstIsLower(p: Params, a: Circuit, b: Circuit)
    requires ValidParams(p) && Infer(p, a).Some? && Infer(p, b).Some?
  {
    Subset(Infer(p, a).value, Infer(p, b).value)
  }

  /** The fresh or bootstrapped state on the path through the lower inputs. */
  function Source(p: Params, c: Circuit): Meta
    requires ValidParams(p) && Infer(p, c).Some?
  {
    match c
    case Fresh => FreshState(p)
    case Unary(_, d) => Source(p, d)
    case Down(_, _, d) => Source(p, d)
    case Boot(_, _) => Infer(p, c).value
    case Add(a, b) => if FirstIsLower(p, a, b) then Source(p, a) else Source(p, b)
    case Mul(a, b, _, _) => if FirstIsLower(p, a, b) then Source(p, a) else Source(p, b)
  }

  /** The gains on that path, in order: those of each step, and for a multiplication the other input's scale. */
  ghost predicate GainedBy(p: Params, c: Circuit, us: seq<real>)
    requires ValidParams(p) && Infer(p, c).Some?
  {
    var k := |us| - 1;
    match c
    case Fresh => us == []
    case Unary(step, d) =>
      us != [] && GainedBy(p, d, us[..k]) &&
      Gain(p.ch, p.defaultUp, Infer(p, d).value, step, Infer(p, c).value, us[k])
    case Down(n, budget, d) =>
      n <= |us| && GainedBy(p, d, us[..|us| - n]) &&
      GainsOf(p.ch, p.defaultUp, Infer(p, d).value, LevelSteps(n, budget), us[|us| - n..])
    case Boot(_, _) => us == []
    case Add(a, b) => if FirstIsLower(p, a, b) then GainedBy(p, a, us) else GainedBy(p, b, us)
    case Mul(a, b, _, _) =>
      us != [] &&
      if FirstIsLower(p, a, b) then GainedBy(p, a, us[..k]) && us[k] == Infer(p, b).value.scale
      else GainedBy(p, b, us[..k]) && us[k] == Infer(p, a).value.scale
  }

  /** A state is balanced against itself, with nothing gained. */
  lemma StartBalances(ch: Chain, s: Meta)
    requires Good(ch, s)
    ensures Balanced(ch, s, Product([]), s)
  {
    SameModulus(ch, s, s);
  }

  /** For every circuit whose drops are right: its scale times the primes dropped since its source is the source's scale
      times the product of its gains. */
  lemma {:induction false} ScaleLaw(p: Params, c: Circuit, src: Meta, gains: seq<real>, r: Meta)
    requires ValidParams(p) && Infer(p, c) == Some(r) && Right(p, c) && src == Source(p, c) && GainedBy(p, c, gains)
    ensures Balanced(p.ch, src, Product(gains), r)
    decreases c, 1
  {
    hide Product, Balanced;
    match c
    case Fresh =>
      InitRowsFacts(p);
      FullIsGood(p.ch, InitRows(p), p.freshScale);
      StartBalances(p.ch, r);
    case Unary(step, d) => UnaryLaw(p, step, d, src, gains, r);
    case Down(n, budget, d) => DownLaw(p, n, budget, d, src, gains, r);
    case Boot(_, d) =>
      BootRowsFacts(p);
      FullIsGood(p.ch, BootRows(p), r.scale);
      StartBalances(p.ch, r);
    case Add(a, b) =>
      if FirstIsLower(p, a, b) { ScaleLaw(p, a, src, gains, r); } else { ScaleLaw(p, b, src, gains, r); }
    case Mul(a, b, with, budget) => MulLaw(p, a, b, with, budget, src, gains, r);
  }

  lemma UnaryParts(p: Params, step: Step, d: Circuit, src: Meta, gains: seq<real>, r: Meta)
    requires ValidParams(p) && Infer(p, Unary(step, d)) == Some(r) && Right(p, Unary(step, d))
    requires src == Source(p, Unary(step, d)) && GainedBy(p, Unary(step, d), gains)
    ensures gains != [] && Infer(p, d).Some? && Right(p, d) && src == Source(p, d)
    ensures ValidChain(p.ch) && Formed(p.ch, Infer(p, d).value) && GainedBy(p, d, gains[..|gains| - 1])
    ensures var s := Infer(p, d).value;
      StepRight(s, step) && Apply(p.ch, p.defaultUp, s, step) == Some(r) &&
      Gain(p.ch, p.defaultUp, s, step, r, gains[|gains| - 1])
  {
    hide Gain, Good, StepRight, Apply, LevelsDown, Multiplied, Adjusted, BootState, FreshState;
  }

  lemma UnaryLaw(p: Params, step: Step, d: Circuit, src: Meta, gains: seq<real>, r: Meta)
    requires ValidParams(p) && Infer(p, Unary(step, d)) == Some(r) && Right(p, Unary(step, d))
    requires src == Source(p, Unary(step, d)) && GainedBy(p, Unary(step, d), gains)
    ensures Balanced(p.ch, src, Product(gains), r)
    decreases d, 2
  {
    hide *;
    UnaryParts(p, step, d, src, gains, r);
    var s, k := Infer(p, d).value, |gains| - 1;
    assert gains == gains[..k] + [gains[k]];
    ScaleLaw(p, d, src, gains[..k], s);
    ThenStep(p.ch, p.defaultUp, src, gains[..k], s, step, gains[k], gains, r);
  }

  lemma DownLaw(p: Params, n: nat, budget: Option<set<nat>>, d: Circuit, src: Meta, gains: seq<real>, r: Meta)
    requires ValidParams(p) && Infer(p, Down(n, budget, d)) == Some(r) && Right(p, Down(n, budget, d))
    requires src == Source(p, Down(n, budget, d)) && GainedBy(p, Down(n, budget, d), gains)
    ensures Balanced(p.ch, src, Product(gains), r)
    decreases d, 2
  {
    hide GainsOf, Good, RunRight, LevelsDown;
    var s, k := Infer(p, d).value, |gains| - n;
    assert gains == gains[..k] + gains[k..];
    ScaleLaw(p, d, src, gains[..k], s);
    ThenDown(p.ch, p.defaultUp, src, gains[..k], s, n, budget, gains[k..], gains, r);
  }

  /** What a multiplication infers, by which input is the lower one. */
  lemma MulParts(p: Params, a: Circuit, b: Circuit, with: bool, budget: Option<set<nat>>, src: Meta, gains: seq<real>,
          r: Meta)
    returns (s: Meta, t: Meta, low: Meta, before: seq<real>, other: real)
    requires ValidParams(p) && Infer(p, Mul(a, b, with, budget)) == Some(r) && Right(p, Mul(a, b, with, budget))
    requires src == Source(p, Mul(a, b, with, budget)) && GainedBy(p, Mul(a, b, with, budget), gains)
    ensures Infer(p, a) == Some(s) && Infer(p, b) == Some(t) && Formed(p.ch, low)
    ensures gains == before + [other]
    ensures FirstIsLower(p, a, b) ==>
      low == s && other == t.scale && Right(p, a) && src == Source(p, a) && GainedBy(p, a, before)
    ensures !FirstIsLower(p, a, b) ==>
      low == t && other == s.scale && Right(p, b) && src == Source(p, b) && GainedBy(p, b, before)
    ensures StepRight(low, Rescale(with, budget, None)) && Formed(p.ch, Rescoped(low, s.scale))
    ensures Rescaled(p.ch, p.defaultUp, Rescoped(low, s.scale), with, budget, Some(t.scale)) == Some(r)
  {
    hide Rescaled, Subset, StepRight, ValidChain, BootState, FreshState, LevelsDown, ColsWithin;
    s, t := Infer(p, a).value, Infer(p, b).value;
    low, before, other := Adjusted(s, t).value, gains[..|gains| - 1], gains[|gains| - 1];
  }

  lemma MulLaw(p: Params, a: Circuit, b: Circuit, with: bool, budget: Option<set<nat>>, src: Meta, gains: seq<real>,
          r: Meta)
    requires ValidParams(p) && Infer(p, Mul(a, b, with, budget)) == Some(r) && Right(p, Mul(a, b, with, budget))
    requires src == Source(p, Mul(a, b, with, budget)) && GainedBy(p, Mul(a, b, with, budget), gains)
    ensures Balanced(p.ch, src, Product(gains), r)
    decreases Mul(a, b, with, budget), 0
  {
    hide *;
    var s, t, low, before, other := MulParts(p, a, b, with, budget, src, gains, r);
    if FirstIsLower(p, a, b) {
      ScaleLaw(p, a, src, before, s);
    } else {
      ScaleLaw(p, b, src, before, t);
    }
    ThenMul(p, src, before, low, other, s.scale, t.scale, with, budget, gains, r);
  }

  /** Every circuit whose drops are right has gains. */
  lemma {:induction false} CircuitHasGains(p: Params, c: Circuit, r: Meta) returns (us: seq<real>)
    requires ValidParams(p) && Infer(p, c) == Some(r) && Right(p, c)
    ensures GainedBy(p, c, us)
    decreases c, 1
  {
    match c
    case Fresh => us := [];
    case Unary(step, d) => us := UnaryHasGains(p, step, d, r);
    case Down(n, budget, d) => us := DownHasGains(p, n, budget, d, r);
    case Boot(_, _) => us := [];
    case Add(a, b) => us := CircuitHasGains(p, if FirstIsLower(p, a, b) then a else b, r);
    case Mul(a, b, with, budget) => us := MulHasGains(p, a, b, with, budget, r);
  }

  lemma {:induction false} UnaryHasGains(p: Params, step: Step, d: Circuit, r: Meta) returns (us: seq<real>)
    requires ValidParams(p) && Infer(p, Unary(step, d)) == Some(r) && Right(p, Unary(step, d))
    ensures GainedBy(p, Unary(step, d), us)
    decreases d, 2
  {
    hide Gain, Good, StepRight, Apply, StepUp, Balanced;
    var s := Infer(p, d).value;
    var before := CircuitHasGains(p, d, s);
    ScaleLaw(p, d, Source(p, d), before, s);
    BalancedIsGood(p.ch, Source(p, d), Product(before), s);
    var u := StepUp(p.ch, p.defaultUp, s, step);
    GainIsUp(p.ch, p.defaultUp, s, step, u, r);
    us := before + [u];
    assert us[..|us| - 1] == before;
  }

  lemma {:induction false} DownHasGains(p: Params, n: nat, budget: Option<set<nat>>, d: Circuit, r: Meta)
    returns (us: seq<real>)
    requires ValidParams(p) && Infer(p, Down(n, budget, d)) == Some(r) && Right(p, Down(n, budget, d))
    ensures GainedBy(p, Down(n, budget, d), us)
    decreases d, 2
  {
    hide GainsOf, Good, RunRight, LevelsDown, Run, Balanced;
    var s := Infer(p, d).value;
    var before := CircuitHasGains(p, d, s);
    ScaleLaw(p, d, Source(p, d), before, s);
    BalancedIsGood(p.ch, Source(p, d), Product(before), s);
    LevelsDownIsRun(p.ch, p.defaultUp, s, n, budget);
    var own := GainsExist(p.ch, p.defaultUp, s, LevelSteps(n, budget), r);
    GainsCount(p.ch, p.defaultUp, s, n, budget, own);
    us := before + own;
    assert us[..|us| - n] == before && us[|us| - n..] == own;
  }

  lemma GainsCount(ch: Chain, defaultUp: real, s: Meta, n: nat, budget: Option<set<nat>>, us: seq<real>)
    requires ValidChain(ch) && Formed(ch, s) && GainsOf(ch, defaultUp, s, LevelSteps(n, budget), us)
    ensures |us| == n
  {
    hide Gain, Apply;
  }

  lemma {:induction false} MulHasGains(p: Params, a: Circuit, b: Circuit, with: bool, budget: Option<set<nat>>, r: Meta)
    returns (us: seq<real>)
    requires ValidParams(p) && Infer(p, Mul(a, b, with, budget)) == Some(r) && Right(p, Mul(a, b, with, budget))
    ensures GainedBy(p, Mul(a, b, with, budget), us)
    decreases Mul(a, b, with, budget), 0
  {
    hide StepRight, Rescaled, Subset, Multiplied;
    var s, t := Infer(p, a).value, Infer(p, b).value;
    var before;
    if FirstIsLower(p, a, b) {
      before := CircuitHasGains(p, a, s);
      us := before + [t.scale];
    } else {
      before := CircuitHasGains(p, b, t);
      us := before + [s.scale];
    }
    assert us[..|us| - 1] == before;
  }

  lemma {:induction false} ProductAppend(a: seq<real>, b: seq<real>)
    ensures Product(a + b) == Product(a) * Product(b)
  {
    if a == [] {
      assert a + b == b;
    } else {
      hide Product;
      assert a == [a[0]] + a[1..] && a + b == [a[0]] + (a[1..] + b);
      ProductAppend(a[1..], b);
      ProductCons(a[0], a[1..], a);
      ProductCons(a[0], a[1..] + b, a + b);
      Reassociate(a[0], Product(a[1..]), Product(b));
    }
  }

  lemma Reassociate(x: real, y: real, z: real)
    ensures x * (y * z) == (x * y) * z
  {}

  /** A further step that gains the factors `us`. */
  lemma ThenGain(ch: Chain, src: Meta, before: seq<real>, s: Meta, us: seq<real>, gains: seq<real>, r: Meta)
    requires ValidChain(ch) && Balanced(ch, src, Product(before), s) && Balanced(ch, s, Product(us), r)
    requires gains == before + us
    ensures Balanced(ch, src, Product(gains), r)
  {
    hide *;
    ProductAppend(before, us);
    Chain2(ch, src, Product(before), s, Product(us), r, Product(gains));
  }

  lemma ProductOne(us: seq<real>, u: real)
    requires us == [u]
    ensures Product(us) == u
  {
    assert us[1..] == [];
  }

  lemma ThenStep(ch: Chain, defaultUp: real, src: Meta, before: seq<real>, s: Meta, step: Step, u: real,
          gains: seq<real>, r: Meta)
    requires ValidChain(ch) && Balanced(ch, src, Product(before), s) && Formed(ch, s) && StepRight(s, step)
    requires Apply(ch, defaultUp, s, step) == Some(r) && Gain(ch, defaultUp, s, step, r, u) && gains == before + [u]
    ensures Balanced(ch, src, Product(gains), r)
  {
    StepBalances(ch, defaultUp, s, step, u, r);
    ProductOne([u], u);
    ThenGain(ch, src, before, s, [u], gains, r);
  }

  lemma ThenDown(ch: Chain, defaultUp: real, src: Meta, before: seq<real>, s: Meta, n: nat, budget: Option<set<nat>>,
          us: seq<real>, gains: seq<real>, r: Meta)
    requires ValidChain(ch) && Balanced(ch, src, Product(before), s) && Formed(ch, s)
    requires RunRight(ch, defaultUp, s, LevelSteps(n, budget)) && LevelsDown(ch, s, n, budget) == Some(r)
    requires GainsOf(ch, defaultUp, s, LevelSteps(n, budget), us) && gains == before + us
    ensures Balanced(ch, src, Product(gains), r)
  {
    LevelsDownIsRun(ch, defaultUp, s, n, budget);
    RunConserves(ch, defaultUp, s, LevelSteps(n, budget), us, r);
    ThenGain(ch, src, before, s, us, gains, r);
  }

  lemma SameScaled(low: Meta, other: real, first: real, second: real)
    requires (low.scale == first && other == second) || (low.scale == second && other == first)
    ensures ScaledUp(Rescoped(low, first), second) == ScaledUp(low, other)
  {}

  /** A multiplication at the level of input `low`, whose own scale it multiplies by the other input's. */
  lemma ThenMul(p: Params, src: Meta, before: seq<real>, low: Meta, other: real, first: real, second: real, with: bool,
          budget: Option<set<nat>>, gains: seq<real>, r: Meta)
    requires ValidParams(p) && Balanced(p.ch, src, Product(before), low) && Formed(p.ch, low)
    requires (low.scale == first && other == second) || (low.scale == second && other == first)
    requires Formed(p.ch, Rescoped(low, first))
    requires StepRight(low, Rescale(with, budget, None)) && gains == before + [other]
    requires Rescaled(p.ch, p.defaultUp, Rescoped(low, first), with, budget, Some(second)) == Some(r)
    ensures Balanced(p.ch, src, Product(gains), r)
  {
    SameScaled(low, other, first, second);
    assert Rescaled(p.ch, p.defaultUp, low, with, budget, Some(other)) == Some(r);
    RescaledBalances(p.ch, p.defaultUp, low, with, budget, Some(other), other, r);
    ProductOne([other], other);
    ThenGain(p.ch, src, before, low, [other], gains, r);
  }

  /** On a fresh ciphertext of a slim bootstrap an explicit drop of one column conserves the scale iff it drops a
      pipeline row: the law above fails exactly for the drops that `Right` excludes. */
  lemma FreshSlimBalancesIff(p: Params, numInit: nat, k: nat, r: Meta)
    requires ValidParams(p) && p.bootstrapping && p.slim && p.ch.layout.stc > 0 && p.freshScale != 0.0
    requires numInit == if p.numInit.Some? then p.numInit.value else p.ch.layout.pipeline
    requires DistinctPrimes(p.ch) && Infer(p, Unary(Switch(k, Some(1)), Fresh)) == Some(r)
    ensures Balanced(p.ch, FreshState(p), 1.0, r) <==> k < numInit
  {
    InitRowsFacts(p);
    FullIsGood(p.ch, InitRows(p), p.freshScale);
    SlimInitRows(p, numInit);
    SlimRank(p.ch, numInit, k);
    OneColumnBalancesIff(p.ch, FreshState(p), k, r);
  }

  /** Over a chain of distinct primes the same holds of a drop of any number of live columns. */
  lemma FreshSlimCountIff(p: Params, numInit: nat, k: nat, n: nat, r: Meta)
    requires ValidParams(p) && p.bootstrapping && p.slim && p.ch.layout.stc > 0 && p.freshScale != 0.0
    requires numInit == if p.numInit.Some? then p.numInit.value else p.ch.layout.pipeline
    requires PrimeDivisors.PrimeChain(p.ch) && Infer(p, Unary(Switch(k, Some(n)), Fresh)) == Some(r)
    requires k < |FreshState(p).rows| && 1 <= n <= LiveCount(FreshState(p).cols[k])
    ensures Balanced(p.ch, FreshState(p), 1.0, r) <==> k < numInit
  {
    InitRowsFacts(p);
    FullIsGood(p.ch, InitRows(p), p.freshScale);
    SlimInitRows(p, numInit);
    SlimRank(p.ch, numInit, k);
    CountBalancesIff(p.ch, FreshState(p), k, n, r);
  }

  /** A state with the rows of a fresh slim ciphertext of m pipeline rows can lose n levels with the right divisors iff
      its pipeline rows hold them. */
  lemma {:induction false} SlimRunRightIff(ch: Chain, defaultUp: real, s: Meta, m: nat, n: nat)
    requires ValidChain(ch) && ch.layout.base == 1 && ch.layout.stc > 0 && m <= ch.layout.pipeline
    requires Good(ch, s) && Formed(ch, s) && s.rows == SlimRows(ch, m)
    ensures m <= |s.rows|
    ensures RunRight(ch, defaultUp, s, LevelSteps(n, None)) <==> n <= LiveIn(s.rows[..m], s.cols[..m], None)
    decreases n
  {
    if n > 0 {
      var steps := LevelSteps(n, None);
      assert steps[0] == Rescale(true, None, None) && steps[1..] == LevelSteps(n - 1, None);
      assert Chosen(s.rows, None, 0) == Some(0);
      SlimRank(ch, m, 0);
      if m > 0 {
        var r, rest := SlimStep(ch, defaultUp, s, m);
        SlimRunRightIff(ch, defaultUp, r, rest, n - 1);
      }
    }
  }

  /** One level down from a pipeline row. */
  lemma SlimStep(ch: Chain, defaultUp: real, s: Meta, m: nat) returns (r: Meta, rest: nat)
    requires ValidChain(ch) && ch.layout.base == 1 && 0 < m <= ch.layout.pipeline
    requires Good(ch, s) && Formed(ch, s) && s.rows == SlimRows(ch, m)
    ensures Apply(ch, defaultUp, s, Rescale(true, None, None)) == Some(r) && Good(ch, r) && Formed(ch, r)
    ensures rest <= m <= |s.rows| && rest <= |r.rows| && r.rows == SlimRows(ch, rest)
    ensures LiveIn(r.rows[..rest], r.cols[..rest], None) == LiveIn(s.rows[..m], s.cols[..m], None) - 1
  {
    SlimRank(ch, m, 0);
    var u := UpOf(ch, defaultUp, s, true, None, None);
    var t := ScaledUp(s, u);
    RescaledInPlace(ch, defaultUp, s, None, None, 0, u, t);
    r := Dropped(ch, t, 0, 1);
    DropKeepsGood(ch, t, 0, 1);
    rest := if LiveCount(s.cols[0]) == 1 then m - 1 else m;
    SlimRest(ch, m);
    FirstColumnGone(ch, t, m, rest, r);
  }

  lemma SlimRest(ch: Chain, m: nat)
    requires 0 < m <= ch.layout.pipeline
    ensures SlimRows(ch, m)[1..] == SlimRows(ch, m - 1)
  {}

  lemma FirstColumnGone(ch: Chain, t: Meta, m: nat, rest: nat, r: Meta)
    requires ValidChain(ch) && Good(ch, t) && 0 < m <= |t.rows| && LiveCount(t.cols[0]) >= 1
    requires r == Dropped(ch, t, 0, 1) && rest == if LiveCount(t.cols[0]) == 1 then m - 1 else m
    ensures rest <= |r.rows| == |r.cols|
    ensures LiveIn(r.rows[..rest], r.cols[..rest], None) == LiveIn(t.rows[..m], t.cols[..m], None) - 1
  {
    assert t.rows[..m][1..] == t.rows[1..m] && t.cols[..m][1..] == t.cols[1..m];
    if LiveCount(t.cols[0]) == 1 {
      assert r.rows[..rest] == t.rows[1..m] && r.cols[..rest] == t.cols[1..m];
    } else {
      assert GoodRow(ch, t.rows, t.cols, 0);
      ClearedSuffix(t.cols[0], |ch.factors[t.rows[0]]|, 1);
      assert r.rows[..rest][1..] == t.rows[1..m] && r.cols[..rest][1..] == t.cols[1..m];
    }
  }

  // ----- circuits whose drops are right -----

  /** Every explicit modswitch since the last bootstrap has a fair count. */
  predicate Fair(p: Params, c: Circuit)
    requires ValidParams(p)
  {
    match c
    case Fresh => true
    case Unary(step, d) => Fair(p, d) && (Infer(p, d).Some? ==> StepFair(Infer(p, d).value, step))
    case Down(_, _, d) => Fair(p, d)
    case Boot(_, d) => true
    case Add(a, b) => Fair(p, a) && Fair(p, b)
    case Mul(a, b, _, _) => Fair(p, a) && Fair(p, b)
  }

  /** Every path starts at a bootstrap. */
  predicate Settled(c: Circuit) {
    match c
    case Fresh => false
    case Unary(_, d) => Settled(d)
    case Down(_, _, d) => Settled(d)
    case Boot(_, d) => true
    case Add(a, b) => Settled(a) && Settled(b)
    case Mul(a, b, _, _) => Settled(a) && Settled(b)
  }

  /** No slim bootstrap, or every path starts at one. */
  predicate Ordered(p: Params, c: Circuit) { p.bootstrapping && p.slim ==> Settled(c) }

  /** Then the active rows of every reachable state are an ordered subset of the chain, each with a non-empty suffix of
      live columns. */
  lemma {:induction false} ReachableAscend(p: Params, c: Circuit, r: Meta)
    requires ValidParams(p) && Fair(p, c) && Ordered(p, c) && Infer(p, c) == Some(r)
    ensures Good(p.ch, r) && Ascending(r.rows)
  {
    match c
    case Fresh =>
      InitRowsFacts(p);
      FullIsGood(p.ch, InitRows(p), p.freshScale);
    case Unary(step, d) =>
      ReachableAscend(p, d, Infer(p, d).value);
      StepKeepsOrder(p.ch, p.defaultUp, Infer(p, d).value, step, r);
    case Down(n, budget, d) =>
      ReachableAscend(p, d, Infer(p, d).value);
      AscendingRun(p.ch, 1.0, Infer(p, d).value, n, budget);
      LevelsDownMeaning(p.ch, Infer(p, d).value, n, budget, Some(r));
    case Boot(_, d) =>
      BootRowsFacts(p);
      FullIsGood(p.ch, BootRows(p), r.scale);
    case Add(a, b) =>
      if FirstIsLower(p, a, b) { ReachableAscend(p, a, r); } else { ReachableAscend(p, b, r); }
    case Mul(a, b, with, budget) =>
      var s, t := Infer(p, a).value, Infer(p, b).value;
      if FirstIsLower(p, a, b) { ReachableAscend(p, a, s); } else { ReachableAscend(p, b, t); }
      ProductAscends(p, s, t, with, budget, Adjusted(s, t).value, r);
  }

  lemma ProductAscends(p: Params, s: Meta, t: Meta, with: bool, budget: Option<set<nat>>, low: Meta, r: Meta)
    requires ValidParams(p) && Formed(p.ch, s) && Formed(p.ch, t) && Adjusted(s, t) == Some(low)
    requires Good(p.ch, low) && Ascending(low.rows) && Multiplied(p, s, t, with, budget) == Some(r)
    ensures Good(p.ch, r) && Ascending(r.rows)
  {
    hide Rescaled, Subset;
    SameModulus(p.ch, low, Rescoped(low, s.scale));
    StepKeepsOrder(p.ch, p.defaultUp, Rescoped(low, s.scale), Rescale(with, budget, Some(t.scale)), r);
  }

  /** And every drop is right. */
  lemma {:induction false} FairIsRight(p: Params, c: Circuit)
    requires ValidParams(p) && Fair(p, c) && Ordered(p, c)
    ensures Right(p, c)
  {
    match c
    case Fresh =>
    case Unary(step, d) =>
      FairIsRight(p, d);
      if Infer(p, d).Some? {
        ReachableAscend(p, d, Infer(p, d).value);
        AscendingIsRight(Infer(p, d).value, step);
      }
    case Down(n, budget, d) =>
      FairIsRight(p, d);
      if Infer(p, d).Some? {
        ReachableAscend(p, d, Infer(p, d).value);
        AscendingRun(p.ch, p.defaultUp, Infer(p, d).value, n, budget);
      }
    case Boot(_, d) =>
    case Add(a, b) =>
      FairIsRight(p, a);
      FairIsRight(p, b);
    case Mul(a, b, with, budget) =>
      FairIsRight(p, a);
      FairIsRight(p, b);
      if Infer(p, c).Some? { MulIsRight(p, a, b, with, budget); }
  }

  lemma MulIsRight(p: Params, a: Circuit, b: Circuit, with: bool, budget: Option<set<nat>>)
    requires ValidParams(p) && Infer(p, Mul(a, b, with, budget)).Some? && Right(p, a) && Right(p, b)
    requires Fair(p, a) && Fair(p, b) && Ordered(p, a) && Ordered(p, b)
    ensures Right(p, Mul(a, b, with, budget))
  {
    hide StepRight, Rescaled, Subset, Fair, Ordered;
    var s, t := Infer(p, a).value, Infer(p, b).value;
    if FirstIsLower(p, a, b) { ReachableAscend(p, a, s); } else { ReachableAscend(p, b, t); }
    JoinAscends(s, t, Adjusted(s, t).value);
    AscendingIsRight(Adjusted(s, t).value, Rescale(with, budget, None));
  }

  lemma JoinAscends(s: Meta, t: Meta, low: Meta)
    requires |s.rows| == |s.cols| && |t.rows| == |t.cols| && Adjusted(s, t) == Some(low)
    requires Ascending(if Subset(s, t) then s.rows else t.rows)
    ensures Ascending(low.rows)
  {}

  /** The scale law of every circuit with fair explicit counts: for every chain without a slim bootstrap, and with a
      slim one from the bootstraps on. */
  lemma CircuitConserves(p: Params, c: Circuit, src: Meta, gains: seq<real>, r: Meta)
    requires ValidParams(p) && Fair(p, c) && Ordered(p, c) && Infer(p, c) == Some(r)
    requires src == Source(p, c) && GainedBy(p, c, gains)
    ensures Balanced(p.ch, src, Product(gains), r)
  {
    FairIsRight(p, c);
    ScaleLaw(p, c, src, gains, r);
  }
}
