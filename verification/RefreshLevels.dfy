/**
 Ciphertexts between refreshes: without row budgets they run down the tails of a bootstrappable chain, and the last
 level that goes is the bootstrap base.
 */
module RefreshLevels {
  import opened Wrappers
  import opened ModulusChain
  import opened LevelTracing
  import opened LevelJoins
  import opened LevelTails

  /** A chain with a base of one prime whose bootstrap restores the whole pipeline and the base. */
  predicate Refreshing(p: Params) {
    ValidParams(p) && p.bootstrapping && !p.slim && p.numInit.None? && |p.ch.factors[BaseRow(p.ch)]| == 1
  }

  function BaseRow(ch: Chain): nat
    requires ValidChain(ch) && ch.layout.base == 1
  {
    ch.layout.pipeline + ch.layout.cts + ch.layout.evalMod + ch.layout.stc
  }

  /** `sum(len(row) for row in full_q_list_precision)`. */
  function PipelineLevels(ch: Chain): nat
    requires ValidChain(ch)
  {
    Capacity(ch, PipelineRows(ch))
  }

  lemma {:induction false} CapacityAppend(ch: Chain, a: seq<nat>, b: seq<nat>)
    requires forall k :: 0 <= k < |a| ==> a[k] < |ch.factors|
    requires forall k :: 0 <= k < |b| ==> b[k] < |ch.factors|
    ensures Capacity(ch, a + b) == Capacity(ch, a) + Capacity(ch, b)
  {
    if a == [] {
      assert a + b == b;
    } else {
      CapacityAppend(ch, a[1..], b);
      assert (a + b)[1..] == a[1..] + b;
    }
  }

  /** A fresh or refreshed ciphertext holds one level per pipeline prime, and the base. */
  lemma BootLevelsCount(p: Params)
    requires Refreshing(p)
    ensures BootLevels(p) == PipelineLevels(p.ch) + 1
  {
    var ch := p.ch;
    BootRowsFacts(p);
    assert BootRows(p) == PipelineRows(ch) + BaseRows(ch);
    CapacityAppend(ch, PipelineRows(ch), BaseRows(ch));
    assert BaseRows(ch) == [BaseRow(ch)];
  }

  /** The next drop of a tail takes the base row iff the base is all that is left. */
  lemma NextIsBase(p: Params, s: Meta)
    requires Refreshing(p) && Tail(p, s) && s.rows != []
    ensures s.rows[0] == BaseRow(p.ch) <==> Live(s) == 1
    ensures Live(s) >= 1
  {
    var ch, full := p.ch, BootRows(p);
    TailBounds(p, s);
    assert BaseRows(ch) == [BaseRow(ch)];
    assert s.rows[0] == full[|full| - |s.rows|];
    if |s.rows| > 1 {
      assert ValidRow(ch, s.rows[1]);
      assert Capacity(ch, s.rows[1..]) >= 1;
    } else {
      assert s.rows[1..] == [];
    }
  }

  lemma LevelRowsOfNone(p: Params, s: Meta, n: nat)
    requires Refreshing(p) && Tail(p, s) && (n == 0 || s.rows == [])
    ensures LevelRows(p.ch, s, n, None) == [] && (s.rows == [] ==> Live(s) == 0)
  {}

  lemma FirstLevel(p: Params, s: Meta, n: nat, base: nat) returns (t: Meta, rest: seq<nat>)
    requires Refreshing(p) && Tail(p, s) && s.rows != [] && n > 0 && base == BaseRow(p.ch)
    ensures Tail(p, t) && Live(t) == Live(s) - 1 && rest == LevelRows(p.ch, t, n - 1, None)
    ensures base in LevelRows(p.ch, s, n, None) <==> Live(s) == 1 || base in rest
  {
    NextIsBase(p, s);
    assert Chosen(s.rows, None, 0) == Some(0);
    RescaleKeepsTail(p, 1.0, s, true, None);
    t := Rescaled(p.ch, 1.0, s, true, None, None).value;
    LevelsStep(p.ch, s, n, None, Some(t));
    rest := LevelRows(p.ch, t, n - 1, None);
    assert LevelRows(p.ch, s, n, None) == [s.rows[0]] + rest;
  }

  lemma {:induction false} LevelRowsHitBase(p: Params, s: Meta, n: nat, base: nat, rows: seq<nat>)
    requires Refreshing(p) && Tail(p, s) && base == BaseRow(p.ch) && rows == LevelRows(p.ch, s, n, None)
    ensures base in rows <==> n >= Live(s) > 0
    decreases n
  {
    hide LevelRows, Refreshing, Tail;
    if n > 0 && s.rows != [] {
      var t, rest := FirstLevel(p, s, n, base);
      LevelRowsHitBase(p, t, n - 1, base, rest);
    } else {
      LevelRowsOfNone(p, s, n);
    }
  }

  /** An operator that costs one level, such as `HomMatMul` and `HomConstMul`. */
  method OneLevel(log: DropLog, p: Params, s: Meta) returns (r: Option<Meta>)
    requires Refreshing(p) && log.ch == p.ch && Tail(p, s)
    modifies log`dropOrder
    ensures r.None? <==> Live(s) == 0
    ensures r.Some? ==> Tail(p, r.value) && Live(r.value) == Live(s) - 1
    ensures old(log.dropOrder) <= log.dropOrder
    ensures BaseRow(p.ch) in log.dropOrder <==> BaseRow(p.ch) in old(log.dropOrder) || Live(s) == 1
  {
    hide Rescaled, Tail, Live;
    FirstRescale(p, s, None);
    TailIsFormed(p, s);
    r := log.OptionalModswitch(p.defaultUp, s, true, None, None);
  }

  /** A polynomial that costs n levels. */
  method PolyLevels(log: DropLog, p: Params, s: Meta, n: nat) returns (r: Option<Meta>)
    requires Refreshing(p) && log.ch == p.ch && Tail(p, s)
    modifies log`dropOrder
    ensures r.None? <==> Live(s) < n
    ensures r.Some? ==> Tail(p, r.value) && Live(r.value) == Live(s) - n
    ensures old(log.dropOrder) <= log.dropOrder
    ensures BaseRow(p.ch) in log.dropOrder <==> BaseRow(p.ch) in old(log.dropOrder) || n >= Live(s) > 0
  {
    LevelsKeepTail(p, s, n);
    LevelRowsHitBase(p, s, n, BaseRow(p.ch), LevelRows(p.ch, s, n, None));
    r := log.ModswitchByNumLevels(s, n, None);
  }

  /** `HomMul` of two ciphertexts: one level below the lower of them. */
  method MulLevels(log: DropLog, p: Params, a: Meta, b: Meta) returns (r: Option<Meta>)
    requires Refreshing(p) && log.ch == p.ch && Tail(p, a) && Tail(p, b)
    modifies log`dropOrder
    ensures r.None? <==> Live(a) == 0 || Live(b) == 0
    ensures r.Some? ==> Tail(p, r.value) && Live(r.value) == Min(Live(a), Live(b)) - 1
    ensures old(log.dropOrder) <= log.dropOrder
    ensures BaseRow(p.ch) in log.dropOrder <==>
      BaseRow(p.ch) in old(log.dropOrder) || Min(Live(a), Live(b)) == 1
  {
    hide Adjusted, Rescaled, Tail, Live;
    JoinLevels(p, a, b);
    TailIsFormed(p, a);
    TailIsFormed(p, b);
    var low := Adjusted(a, b);
    if low.None? {
      return None;
    }
    var s := Rescoped(low.value, a.scale);
    ScaledTail(p, low.value, s);
    FirstRescale(p, s, Some(b.scale));
    TailIsFormed(p, s);
    r := log.OptionalModswitch(p.defaultUp, s, true, None, Some(b.scale));
  }

  /** A rescale of a tail drops from its first row, which is the base row iff one level is left. */
  lemma FirstRescale(p: Params, s: Meta, up: Option<real>)
    requires Refreshing(p) && Tail(p, s)
    ensures var r := Rescaled(p.ch, p.defaultUp, s, true, None, up);
      (r.None? <==> Live(s) == 0) && (r.Some? ==> Tail(p, r.value) && Live(r.value) == Live(s) - 1) &&
      (Live(s) > 0 ==>
         Chosen(s.rows, None, 0) == Some(0) && (s.rows[0] == BaseRow(p.ch) <==> Live(s) == 1))
  {
    hide Rescaled;
    RescaleKeepsTail(p, p.defaultUp, s, true, up);
    if s.rows != [] {
      assert Chosen(s.rows, None, 0) == Some(0);
      NextIsBase(p, s);
    }
  }

  function Min(a: nat, b: nat): nat { if a <= b then a else b }

  /** Two tails join at the lower one, unless one has run out of levels. */
  lemma JoinLevels(p: Params, a: Meta, b: Meta)
    requires Refreshing(p) && Tail(p, a) && Tail(p, b)
    ensures Adjusted(a, b).None? <==> Live(a) == 0 || Live(b) == 0
    ensures Adjusted(a, b).Some? ==>
      Tail(p, Adjusted(a, b).value) && Live(Adjusted(a, b).value) == Min(Live(a), Live(b))
  {
    TailBounds(p, a);
    TailBounds(p, b);
    TailLive(p, a);
    TailLive(p, b);
    if Live(a) > 0 && Live(b) > 0 { TailsJoin(p, a, b); }
  }

  /** A refreshed ciphertext. */
  lemma RefreshedLevels(p: Params, scale: real)
    requires Refreshing(p)
    ensures Tail(p, BootState(p, scale)) && Live(BootState(p, scale)) == PipelineLevels(p.ch) + 1
  {
    BootLevelsCount(p);
    BootIsTail(p, scale);
  }

  /** A fresh ciphertext. */
  lemma FreshLevels(p: Params)
    requires Refreshing(p)
    ensures Tail(p, FreshState(p)) && Live(FreshState(p)) == PipelineLevels(p.ch) + 1
  {
    BootLevelsCount(p);
    InitIsTail(p);
    assert InitRows(p) == BootRows(p);
  }
}
