/**
 The network of `bitonic_sort.py` sorts: compare-exchanges commute with thresholds, so sorting bits is enough.
 */
module BitonicSorting {
  import opened Bits
  import opened BitonicNetwork

  function Step(d: real): real { if d > 0.0 then 1.0 else 0.0 }

  /** The comparator the polynomial approximates: 1 for a positive difference, else 0. */
  function Exact(): Comparator { (s, i, d) => Step(d) }

  function Min(a: real, b: real): real { if a <= b then a else b }
  function Max(a: real, b: real): real { if a <= b then b else a }

  /** Compare-exchange of every i with i ^ 2^e; bit f decides the direction. */
  function CompareExchange(x: Vec, f: nat, e: nat, m: nat): (r: Vec)
    requires |x| == Pow2(m) && e < m
    ensures |r| == |x|
  {
    seq(|x|, i requires 0 <= i < |x| =>
      PartnerInRange(i, e, m);
      if Low(i, f) == Low(i, e) then Min(x[i], x[Partner(i, e)]) else Max(x[i], x[Partner(i, e)]))
  }

  /** The pair stage with an exact comparator is the compare-exchange. */
  lemma PairStageIsExchange(x: Vec, l: Layer, m: nat, s: nat)
    requires |x| == Pow2(m) && l.e < l.f <= m
    ensures PairStage(x, l, m, Exact(), s) == CompareExchange(x, l.f, l.e, m)
  {
    forall i: nat | i < |x|
      ensures PairStage(x, l, m, Exact(), s)[i] == CompareExchange(x, l.f, l.e, m)[i]
    {
      PairSlots(i, l.e, m);
      PartnerFacts(i, l.e);
      var lo := PairLow(i, l.e);
      var d := x[lo + Pow2(l.e)] - x[lo];
      PairStageEntry(x, l, m, Exact(), s, i, lo, lo + Pow2(l.e), d, Moved(Step(d), d));
      ExactPair(Low(i, l.f), Low(i, l.e), x[lo], x[lo + Pow2(l.e)], d, Moved(Step(d), d));
    }
  }

  /** With an exact answer the pair output is the minimum or the maximum. */
  lemma ExactPair(asc: bool, low: bool, a: real, b: real, d: real, td: real)
    requires d == b - a && td == Moved(Step(d), d)
    ensures PairOutput(asc, low, a, b, td) == if asc == low then Min(a, b) else Max(a, b)
  {}

  /** The branch-free rotate/mask/multiply stage with an exact comparator is the compare-exchange of i with
      i ^ j, ascending exactly when i & k is 0. */
  lemma StageIsCompareExchange(x: Vec, l: Layer, m: nat, s: nat, k: nat, j: nat)
    requires |x| == Pow2(m) && l.e < l.f <= m && k == Pow2(l.f) && j == Pow2(l.e)
    ensures var r := StageForward(x, k, j, Answers(Exact(), s, Differences(x, j)));
      forall i: nat | i < |x| ::
        Xor(i, j) < |x| &&
        r[i] == if (And(i, k) == 0) == (And(i, j) == 0) then Min(x[i], x[Xor(i, j)]) else Max(x[i], x[Xor(i, j)])
  {
    StageIsPairStage(x, l, m, Exact(), s, k, j, Answers(Exact(), s, Differences(x, j)));
    PairStageIsExchange(x, l, m, s);
    var r := CompareExchange(x, l.f, l.e, m);
    forall i: nat | i < |x|
      ensures Xor(i, j) < |x|
      ensures r[i] == if (And(i, k) == 0) == (And(i, j) == 0) then Min(x[i], x[Xor(i, j)]) else Max(x[i], x[Xor(i, j)])
    {
      AndIsBit(i, l.f);
      AndIsBit(i, l.e);
      XorIsPartner(i, l.e);
      PartnerInRange(i, l.e, m);
    }
  }

  // ----- the same network on truth values -----

  function Threshold(x: Vec, c: real): (y: seq<bool>)
    ensures |y| == |x|
  {
    seq(|x|, i requires 0 <= i < |x| => x[i] >= c)
  }

  function BoolExchange(y: seq<bool>, f: nat, e: nat, m: nat): (r: seq<bool>)
    requires |y| == Pow2(m) && e < m
    ensures |r| == |y|
  {
    seq(|y|, i requires 0 <= i < |y| =>
      PartnerInRange(i, e, m);
      if Low(i, f) == Low(i, e) then y[i] && y[Partner(i, e)] else y[i] || y[Partner(i, e)])
  }

  /** Cutting at a threshold commutes with a compare-exchange. */
  lemma ExchangeCommutes(x: Vec, c: real, f: nat, e: nat, m: nat)
    requires |x| == Pow2(m) && e < m
    ensures Threshold(CompareExchange(x, f, e, m), c) == BoolExchange(Threshold(x, c), f, e, m)
  {
    forall i: nat | i < |x|
      ensures Threshold(CompareExchange(x, f, e, m), c)[i] == BoolExchange(Threshold(x, c), f, e, m)[i]
    {
      PartnerInRange(i, e, m);
    }
  }

  /** Phase f from distance 2^(e-1) down to 1. */
  function Merge(x: Vec, f: nat, e: nat, m: nat): (r: Vec)
    requires |x| == Pow2(m) && e <= m
    ensures |r| == |x|
    decreases e
  {
    if e == 0 then x else Merge(CompareExchange(x, f, e - 1, m), f, e - 1, m)
  }

  /** Phases f to m. */
  function SortFrom(x: Vec, f: nat, m: nat): (r: Vec)
    requires |x| == Pow2(m)
    ensures |r| == |x|
    decreases m + 1 - f
  {
    if f > m then x else SortFrom(Merge(x, f, f, m), f + 1, m)
  }

  function BoolMerge(y: seq<bool>, f: nat, e: nat, m: nat): (r: seq<bool>)
    requires |y| == Pow2(m) && e <= m
    ensures |r| == |y|
    decreases e
  {
    if e == 0 then y else BoolMerge(BoolExchange(y, f, e - 1, m), f, e - 1, m)
  }

  function BoolSortFrom(y: seq<bool>, f: nat, m: nat): (r: seq<bool>)
    requires |y| == Pow2(m)
    ensures |r| == |y|
    decreases m + 1 - f
  {
    if f > m then y else BoolSortFrom(BoolMerge(y, f, f, m), f + 1, m)
  }

  lemma {:induction false} MergeCommutes(x: Vec, c: real, f: nat, e: nat, m: nat)
    requires |x| == Pow2(m) && e <= m
    ensures Threshold(Merge(x, f, e, m), c) == BoolMerge(Threshold(x, c), f, e, m)
    decreases e
  {
    if e > 0 {
      ExchangeCommutes(x, c, f, e - 1, m);
      MergeCommutes(CompareExchange(x, f, e - 1, m), c, f, e - 1, m);
    }
  }

  lemma {:induction false} SortCommutes(x: Vec, c: real, f: nat, m: nat)
    requires |x| == Pow2(m)
    ensures Threshold(SortFrom(x, f, m), c) == BoolSortFrom(Threshold(x, c), f, m)
    decreases m + 1 - f
  {
    if f <= m {
      MergeCommutes(x, c, f, f, m);
      SortCommutes(Merge(x, f, f, m), c, f + 1, m);
    }
  }

  // ----- bitonic truth-value sequences -----

  /** z is v on [a, b) and !v elsewhere. */
  predicate Hump(z: seq<bool>, a: nat, b: nat, v: bool) {
    a <= b <= |z| && forall i :: 0 <= i < |z| ==> z[i] == if a <= i < b then v else !v
  }

  ghost predicate Bitonic(z: seq<bool>) {
    exists a: nat, b: nat, v: bool :: Hump(z, a, b, v)
  }

  function Ands(u: seq<bool>, v: seq<bool>): (r: seq<bool>)
    requires |u| == |v|
  {
    seq(|u|, i requires 0 <= i < |u| => u[i] && v[i])
  }

  function Ors(u: seq<bool>, v: seq<bool>): (r: seq<bool>)
    requires |u| == |v|
  {
    seq(|u|, i requires 0 <= i < |u| => u[i] || v[i])
  }

  /** Comparing the halves of a bitonic sequence leaves two bitonic halves, and either the minima are all
      false or the maxima are all true. */
  lemma HalfClean(u: seq<bool>, v: seq<bool>)
    requires |u| == |v| && Bitonic(u + v)
    ensures Bitonic(Ands(u, v)) && Bitonic(Ors(u, v))
    ensures (forall i :: 0 <= i < |u| ==> !Ands(u, v)[i]) || (forall i :: 0 <= i < |u| ==> Ors(u, v)[i])
  {
    var z, h := u + v, |u|;
    var a: nat, b: nat, w: bool :| Hump(z, a, b, w);
    forall i | 0 <= i < h
      ensures u[i] == (if a <= i < b then w else !w) && v[i] == if a <= i + h < b then w else !w
    {
      assert u[i] == z[i] && v[i] == z[i + h];
    }
    var lo, hi := if w then Ands(u, v) else Ors(u, v), if w then Ors(u, v) else Ands(u, v);
    // lo is w where both halves are, hi is w where one half is
    if b <= h {
      assert Hump(lo, 0, 0, w) && Hump(hi, a, b, w);
    } else if a >= h {
      assert Hump(lo, 0, 0, w) && Hump(hi, a - h, b - h, w);
    } else if b - h <= a {
      assert Hump(lo, 0, 0, w);
      assert Hump(hi, b - h, a, !w);
    } else {
      assert Hump(lo, a, b - h, w);
      assert Hump(hi, 0, h, w);
    }
  }

  /** A sorted half followed by a reverse-sorted half is bitonic. */
  lemma UpDownIsBitonic(u: seq<bool>, v: seq<bool>)
    requires forall i, j :: 0 <= i < j < |u| ==> u[i] ==> u[j]
    requires forall i, j :: 0 <= i < j < |v| ==> v[j] ==> v[i]
    ensures Bitonic(u + v)
  {
    var a := FirstTrue(u);
    var b := FirstFalse(v);
    if a == |u| {
      assert Hump(u + v, a, a + b, true);
    } else {
      assert Hump(u + v, a, |u| + b, true);
    }
  }

  lemma {:induction false} FirstTrue(u: seq<bool>) returns (a: nat)
    requires forall i, j :: 0 <= i < j < |u| ==> u[i] ==> u[j]
    ensures a <= |u| && forall i :: 0 <= i < |u| ==> u[i] == (i >= a)
  {
    a := 0;
    while a < |u| && !u[a]
      invariant a <= |u| && forall i :: 0 <= i < a ==> !u[i]
    {
      a := a + 1;
    }
  }

  lemma {:induction false} FirstFalse(v: seq<bool>) returns (b: nat)
    requires forall i, j :: 0 <= i < j < |v| ==> v[j] ==> v[i]
    ensures b <= |v| && forall i :: 0 <= i < |v| ==> v[i] == (i < b)
  {
    b := 0;
    while b < |v| && v[b]
      invariant b <= |v| && forall i :: 0 <= i < b ==> v[i]
    {
      b := b + 1;
    }
  }

  // ----- blocks of positions -----

  /** `c << e`: the first position of block c. */
  function Start(c: nat, e: nat): (s: nat)
    decreases e
  {
    if e == 0 then c else Start(2 * c, e - 1)
  }

  lemma {:induction false} StartStep(c: nat, e: nat)
    ensures Start(c + 1, e) == Start(c, e) + Pow2(e)
    decreases e
  {
    if e > 0 {
      StartStep(2 * c, e - 1);
      StartStep(2 * c + 1, e - 1);
    }
  }

  lemma {:induction false} InBlock(c: nat, e: nat, r: nat)
    requires r < Pow2(e)
    ensures Block(Start(c, e) + r, e) == c
    decreases e
  {
    if e > 0 {
      var h := Pow2(e - 1);
      if r < h {
        InBlock(2 * c, e - 1, r);
        BlockOfBlock(Start(c, e) + r, e - 1, e);
      } else {
        StartStep(2 * c, e - 1);
        InBlock(2 * c + 1, e - 1, r - h);
        BlockOfBlock(Start(c, e) + r, e - 1, e);
      }
    }
  }

  lemma {:induction false} BlockStart(p: nat, e: nat)
    ensures Start(Block(p, e), e) <= p < Start(Block(p, e), e) + Pow2(e)
    decreases e
  {
    if e > 0 {
      BlockStart(p, e - 1);
      BlockOfBlock(p, e - 1, e);
      var c := Block(p, e - 1);
      StartStep(2 * (c / 2), e - 1);
    }
  }

  predicate Directed(asc: bool, a: bool, b: bool) {
    if asc then a ==> b else b ==> a
  }

  predicate PairOrdered(y: seq<bool>, f: nat, e: nat, p: nat, q: nat) {
    p < q < |y| && Block(p, f) == Block(q, f) && Block(p, e) != Block(q, e) ==> Directed(Low(p, f), y[p], y[q])
  }

  /** Inside each 2^f-block, values in different 2^e-blocks are in the direction of the 2^f-block. */
  ghost predicate Ordered(y: seq<bool>, f: nat, e: nat) {
    forall p: nat, q: nat {:trigger PairOrdered(y, f, e, p, q)} :: PairOrdered(y, f, e, p, q)
  }

  ghost predicate BlockBitonic(y: seq<bool>, e: nat, c: nat) {
    Start(c, e) + Pow2(e) <= |y| ==> Bitonic(y[Start(c, e)..Start(c, e) + Pow2(e)])
  }

  ghost predicate BlocksBitonic(y: seq<bool>, e: nat) {
    forall c: nat {:trigger BlockBitonic(y, e, c)} :: BlockBitonic(y, e, c)
  }

  /** What one exchange at distance h = 2^e does to the slots s + i and s + h + i of the 2^(e+1)-block c. */
  lemma BlockExchangeAt(y: seq<bool>, f: nat, e: nat, m: nat, c: nat, s: nat, h: nat, i: nat)
    requires |y| == Pow2(m) && e < m && e < f && s == Start(c, e + 1) && h == Pow2(e) && s + 2 * h <= |y| && i < h
    ensures var r, a, b := BoolExchange(y, f, e, m), y[s + i], y[s + h + i];
      r[s + i] == (if Low(s, f) then a && b else a || b) &&
      r[s + h + i] == (if Low(s, f) then a || b else a && b)
  {
    SlotBits(f, e, c, s, h, i);
    PartnerFacts(s + i, e);
  }

  lemma SlotBits(f: nat, e: nat, c: nat, s: nat, h: nat, i: nat)
    requires e < f && s == Start(c, e + 1) && h == Pow2(e) && i < h
    ensures Low(s + i, e) && !Low(s + h + i, e)
    ensures Partner(s + i, e) == s + h + i && Partner(s + h + i, e) == s + i
    ensures Low(s + i, f) == Low(s, f) == Low(s + h + i, f)
  {
    assert Pow2(e + 1) == 2 * h;
    hide Block, Pow2, Low, Partner;
    HalfBits(e, c, s, h, i);
    SameSide(f, e, c, s, i);
    SameSide(f, e, c, s, h + i);
  }

  lemma HalfBits(e: nat, c: nat, s: nat, h: nat, i: nat)
    requires s == Start(c, e + 1) && h == Pow2(e) && i < h
    ensures Low(s + i, e) && !Low(s + h + i, e)
    ensures Partner(s + i, e) == s + h + i && Partner(s + h + i, e) == s + i
  {
    hide Block, Pow2;
    InBlock(2 * c, e, i);
    StartStep(2 * c, e);
    InBlock(2 * c + 1, e, i);
  }

  lemma SameSide(f: nat, e: nat, c: nat, s: nat, i: nat)
    requires e < f && s == Start(c, e + 1) && i < Pow2(e + 1)
    ensures Low(s + i, f) == Low(s, f)
  {
    InBlock(c, e + 1, i);
    InBlock(c, e + 1, 0);
    SameBlockUp(s + i, s, e + 1, f);
  }

  lemma BlockExchange(y: seq<bool>, f: nat, e: nat, m: nat, c: nat, s: nat, h: nat)
    requires |y| == Pow2(m) && e < m && e < f && s == Start(c, e + 1) && h == Pow2(e) && s + 2 * h <= |y|
    ensures var u, v, r := y[s..s + h], y[s + h..s + 2 * h], BoolExchange(y, f, e, m);
      r[s..s + h] == (if Low(s, f) then Ands(u, v) else Ors(u, v)) &&
      r[s + h..s + 2 * h] == (if Low(s, f) then Ors(u, v) else Ands(u, v))
  {
    var u, v, r := y[s..s + h], y[s + h..s + 2 * h], BoolExchange(y, f, e, m);
    var lo, hi := r[s..s + h], r[s + h..s + 2 * h];
    forall i: nat | i < h
      ensures lo[i] == (if Low(s, f) then u[i] && v[i] else u[i] || v[i])
      ensures hi[i] == (if Low(s, f) then u[i] || v[i] else u[i] && v[i])
    {
      BlockExchangeAt(y, f, e, m, c, s, h, i);
    }
    if Low(s, f) {
      assert lo == Ands(u, v) && hi == Ors(u, v);
    } else {
      assert lo == Ors(u, v) && hi == Ands(u, v);
    }
  }

  /** A 2^e-block inside the range lies in a 2^(e+1)-block inside the range. */
  lemma DoubleBlockFits(c: nat, e: nat, m: nat, s: nat, h: nat)
    requires e < m && h == Pow2(e) && Start(c, e) + h <= Pow2(m) && s == Start(c / 2, e + 1)
    ensures s + 2 * h <= Pow2(m) && Start(c, e) == if c % 2 == 0 then s else s + h
  {
    StartStep(2 * (c / 2), e);
    if c % 2 == 0 {
      InBlock(c, e, h - 1);
      PartnerInRange(Start(c, e) + h - 1, e, m);
    }
  }

  /** The two halves of a double block after an exchange. */
  lemma ExchangedHalves(y: seq<bool>, f: nat, e: nat, m: nat, c: nat, s: nat, h: nat)
    requires |y| == Pow2(m) && e < m && e < f && BlockBitonic(y, e + 1, c)
    requires s == Start(c, e + 1) && h == Pow2(e) && s + 2 * h <= |y|
    ensures var r := BoolExchange(y, f, e, m); var lo, hi := r[s..s + h], r[s + h..s + 2 * h];
      Bitonic(lo) && Bitonic(hi) &&
      forall i, j :: 0 <= i < h && 0 <= j < h ==> Directed(Low(s, f), lo[i], hi[j])
  {
    var u, v := y[s..s + h], y[s + h..s + 2 * h];
    assert y[s..s + Pow2(e + 1)] == u + v;
    HalfClean(u, v);
    BlockExchange(y, f, e, m, c, s, h);
  }

  lemma ExchangeKeepsBitonic(y: seq<bool>, f: nat, e: nat, m: nat, c: nat)
    requires |y| == Pow2(m) && e < m && e < f && BlocksBitonic(y, e + 1)
    ensures BlockBitonic(BoolExchange(y, f, e, m), e, c)
  {
    var s, h := Start(c / 2, e + 1), Pow2(e);
    if Start(c, e) + h <= |y| {
      DoubleBlockFits(c, e, m, s, h);
      assert BlockBitonic(y, e + 1, c / 2);
      ExchangedHalves(y, f, e, m, c / 2, s, h);
    }
  }

  lemma HalvesDirected(y: seq<bool>, f: nat, e: nat, m: nat, c: nat, s: nat, h: nat, i: nat, j: nat)
    requires |y| == Pow2(m) && e < m && e < f && BlocksBitonic(y, e + 1)
    requires s == Start(c, e + 1) && h == Pow2(e) && s + 2 * h <= |y| && i < h && j < h
    ensures var r := BoolExchange(y, f, e, m); Directed(Low(s, f), r[s + i], r[s + h + j])
  {
    var r := BoolExchange(y, f, e, m);
    assert BlockBitonic(y, e + 1, c);
    ExchangedHalves(y, f, e, m, c, s, h);
    assert r[s + i] == r[s..s + h][i] && r[s + h + j] == r[s + h..s + 2 * h][j];
  }

  lemma ExchangeOrdersBlock(y: seq<bool>, f: nat, e: nat, m: nat, p: nat, q: nat)
    requires |y| == Pow2(m) && e < m && e < f && BlocksBitonic(y, e + 1)
    requires p < q < |y| && Block(p, e + 1) == Block(q, e + 1) && Block(p, e) != Block(q, e)
    ensures var r := BoolExchange(y, f, e, m); Directed(Low(p, f), r[p], r[q])
  {
    var r, h, c := BoolExchange(y, f, e, m), Pow2(e), Block(p, e + 1);
    var s := Start(c, e + 1);
    SplitBlock(e, m, p, q, c, s, h);
    HalvesDirected(y, f, e, m, c, s, h, p - s, q - s - h);
    SameBlockUp(p, s, e + 1, f);
  }

  /** Positions p < q that share a double block but not a block sit in its two halves. */
  lemma SplitBlock(e: nat, m: nat, p: nat, q: nat, c: nat, s: nat, h: nat)
    requires e < m && p < q < Pow2(m) && Block(p, e + 1) == Block(q, e + 1) == c && Block(p, e) != Block(q, e)
    requires s == Start(c, e + 1) && h == Pow2(e)
    ensures s <= p < s + h <= q < s + 2 * h <= Pow2(m)
    ensures Block(s, e + 1) == c
  {
    hide Start, Pow2;
    BlockOfBlock(p, e, e + 1);
    BlockOfBlock(q, e, e + 1);
    BlockMonotone(p, q, e);
    BlockStart(p, e);
    BlockStart(q, e);
    StartStep(2 * c, e);
    InBlock(c, e + 1, 0);
    DoubleBlockFits(2 * c, e, m, s, h);
  }

  lemma ExchangeKeepsOrder(y: seq<bool>, f: nat, e: nat, m: nat, p: nat, q: nat)
    requires |y| == Pow2(m) && e < m && e < f && Ordered(y, f, e + 1)
    requires p < q < |y| && Block(p, f) == Block(q, f) && Block(p, e + 1) != Block(q, e + 1)
    ensures var r := BoolExchange(y, f, e, m); Directed(Low(p, f), r[p], r[q])
  {
    PartnerInRange(p, e, m);
    PartnerInRange(q, e, m);
    PartnerFacts(p, e);
    PartnerFacts(q, e);
    var p2, q2 := Partner(p, e), Partner(q, e);
    SameBlockUp(p, p2, e + 1, f);
    SameBlockUp(q, q2, e + 1, f);
    BlockMonotone(p, q, e + 1);
    SmallerBlock(p, q, e + 1);
    SmallerBlock(p2, q2, e + 1);
    SmallerBlock(p2, q, e + 1);
    SmallerBlock(p, q2, e + 1);
    assert PairOrdered(y, f, e + 1, p, q) && PairOrdered(y, f, e + 1, p2, q2);
    assert PairOrdered(y, f, e + 1, p, q2) && PairOrdered(y, f, e + 1, p2, q);
  }

  lemma SmallerBlock(p: nat, q: nat, e: nat)
    requires Block(p, e) < Block(q, e)
    ensures p < q
  {
    if q <= p { BlockMonotone(q, p, e); }
  }

  lemma ExchangeStep(y: seq<bool>, f: nat, e: nat, m: nat)
    requires |y| == Pow2(m) && e < m && e < f && Ordered(y, f, e + 1) && BlocksBitonic(y, e + 1)
    ensures var r := BoolExchange(y, f, e, m); Ordered(r, f, e) && BlocksBitonic(r, e)
  {
    var r := BoolExchange(y, f, e, m);
    forall c: nat
      ensures BlockBitonic(r, e, c)
    {
      ExchangeKeepsBitonic(y, f, e, m, c);
    }
    forall p: nat, q: nat
      ensures PairOrdered(r, f, e, p, q)
    {
      if p < q < |r| && Block(p, f) == Block(q, f) && Block(p, e) != Block(q, e) {
        if Block(p, e + 1) == Block(q, e + 1) {
          ExchangeOrdersBlock(y, f, e, m, p, q);
        } else {
          ExchangeKeepsOrder(y, f, e, m, p, q);
        }
      }
    }
  }

  lemma {:induction false} MergeSorts(y: seq<bool>, f: nat, e: nat, m: nat)
    requires |y| == Pow2(m) && e <= f <= m && Ordered(y, f, e) && BlocksBitonic(y, e)
    ensures Ordered(BoolMerge(y, f, e, m), f, 0)
    decreases e
  {
    if e > 0 {
      ExchangeStep(y, f, e - 1, m);
      MergeSorts(BoolExchange(y, f, e - 1, m), f, e - 1, m);
    }
  }

  /** A sorted block, seen through its positions. */
  lemma SortedBlock(y: seq<bool>, e: nat, c: nat, s: nat, i: nat, j: nat)
    requires Ordered(y, e, 0) && s == Start(c, e) && i < j < Pow2(e) && s + j < |y|
    ensures Directed(c % 2 == 0, y[s + i], y[s + j])
  {
    InBlock(c, e, i);
    InBlock(c, e, j);
    assert PairOrdered(y, e, 0, s + i, s + j);
  }

  /** Two neighbouring sorted blocks, the first ascending and the second descending. */
  lemma SortedHalves(y: seq<bool>, f: nat, c: nat, s: nat, h: nat, u: seq<bool>, v: seq<bool>)
    requires f >= 1 && Ordered(y, f - 1, 0) && h == Pow2(f - 1) && s == Start(2 * c, f - 1) && s + 2 * h <= |y|
    requires Start(2 * c + 1, f - 1) == s + h && u == y[s..s + h] && v == y[s + h..s + 2 * h]
    ensures forall i, j :: 0 <= i < j < h ==> (u[i] ==> u[j]) && (v[j] ==> v[i])
  {
    forall i, j | 0 <= i < j < h
      ensures (u[i] ==> u[j]) && (v[j] ==> v[i])
    {
      SortedBlock(y, f - 1, 2 * c, s, i, j);
      SortedBlock(y, f - 1, 2 * c + 1, s + h, i, j);
    }
  }

  /** Neighbouring blocks sorted in opposite directions form bitonic double blocks. */
  lemma PhaseStart(y: seq<bool>, f: nat, c: nat)
    requires f >= 1 && Ordered(y, f - 1, 0)
    ensures BlockBitonic(y, f, c)
  {
    var s, h := Start(c, f), Pow2(f - 1);
    if s + Pow2(f) <= |y| {
      StartStep(2 * c, f - 1);
      var u, v := y[s..s + h], y[s + h..s + 2 * h];
      SortedHalves(y, f, c, s, h, u, v);
      UpDownIsBitonic(u, v);
      assert y[s..s + Pow2(f)] == u + v;
    }
  }

  lemma {:induction false} BoolNetworkSorts(y: seq<bool>, f: nat, m: nat)
    requires |y| == Pow2(m) && 1 <= f <= m + 1 && Ordered(y, f - 1, 0)
    ensures Ordered(BoolSortFrom(y, f, m), m, 0)
    decreases m + 1 - f
  {
    if f <= m {
      forall c: nat
        ensures BlockBitonic(y, f, c)
      {
        PhaseStart(y, f, c);
      }
      forall p: nat, q: nat
        ensures PairOrdered(y, f, f, p, q)
      {}
      MergeSorts(y, f, f, m);
      BoolNetworkSorts(BoolMerge(y, f, f, m), f + 1, m);
    }
  }

  // ----- the real network -----

  predicate Ascending(x: Vec) {
    forall i, j :: 0 <= i < j < |x| ==> x[i] <= x[j]
  }

  lemma NetworkAscends(x: Vec, m: nat)
    requires |x| == Pow2(m)
    ensures Ascending(SortFrom(x, 1, m))
  {
    var z := SortFrom(x, 1, m);
    forall i: nat, j: nat | i < j < |z|
      ensures z[i] <= z[j]
    {
      ThresholdPair(x, m, i, j, z[i]);
    }
  }

  lemma ThresholdPair(x: Vec, m: nat, i: nat, j: nat, c: real)
    requires |x| == Pow2(m) && i < j < |x|
    ensures SortFrom(x, 1, m)[i] >= c ==> SortFrom(x, 1, m)[j] >= c
  {
    SortCommutes(x, c, 1, m);
    BoolSorts(Threshold(x, c), m, i, j);
    var z := SortFrom(x, 1, m);
    assert Threshold(z, c)[i] == (z[i] >= c) && Threshold(z, c)[j] == (z[j] >= c);
  }

  lemma SingletonsOrdered(y: seq<bool>)
    ensures Ordered(y, 0, 0)
  {}

  lemma WholeBlockSorted(z: seq<bool>, m: nat, i: nat, j: nat)
    requires |z| == Pow2(m) && Ordered(z, m, 0) && i < j < |z|
    ensures z[i] ==> z[j]
  {
    NextBlock(i, m);
    NextBlock(j, m);
    assert PairOrdered(z, m, 0, i, j);
  }

  lemma BoolSorts(y: seq<bool>, m: nat, i: nat, j: nat)
    requires |y| == Pow2(m) && i < j < |y|
    ensures BoolSortFrom(y, 1, m)[i] ==> BoolSortFrom(y, 1, m)[j]
  {
    SingletonsOrdered(y);
    BoolNetworkSorts(y, 1, m);
    WholeBlockSorted(BoolSortFrom(y, 1, m), m, i, j);
  }

  lemma NoDistances(x: Vec, f: nat, m: nat, rest: seq<Layer>)
    requires |x| == Pow2(m)
    ensures PhaseLayers(f, 0) + rest == rest && Merge(x, f, 0, m) == x
  {}

  lemma FirstDistance(x: Vec, f: nat, e: nat, m: nat, rest: seq<Layer>)
    requires |x| == Pow2(m) && 0 < e <= m
    ensures PhaseLayers(f, e) + rest == [Layer(f, e - 1)] + (PhaseLayers(f, e - 1) + rest)
    ensures Merge(x, f, e, m) == Merge(CompareExchange(x, f, e - 1, m), f, e - 1, m)
  {
    hide CompareExchange;
  }

  lemma RunFirst(x: Vec, l: Layer, tail: seq<Layer>, m: nat, c: Comparator, s: nat)
    requires |x| == Pow2(m) && Fits([l] + tail, m)
    ensures l.e < l.f <= m && Fits(tail, m)
    ensures Run(x, [l] + tail, m, c, s) == Run(PairStage(x, l, m, c, s), tail, m, c, s + 1)
  {
    hide PairStage;
    assert ([l] + tail)[0] == l && ([l] + tail)[1..] == tail;
  }

  lemma {:induction false} RunPhase(x: Vec, f: nat, e: nat, m: nat, rest: seq<Layer>, s: nat)
    requires |x| == Pow2(m) && e <= f <= m && Fits(rest, m) && Fits(PhaseLayers(f, e) + rest, m)
    ensures Run(x, PhaseLayers(f, e) + rest, m, Exact(), s) == Run(Merge(x, f, e, m), rest, m, Exact(), s + e)
    decreases e
  {
    hide *;
    if e == 0 {
      NoDistances(x, f, m, rest);
    } else {
      var tail := PhaseLayers(f, e - 1) + rest;
      FirstDistance(x, f, e, m, rest);
      RunFirst(x, Layer(f, e - 1), tail, m, Exact(), s);
      PairStageIsExchange(x, Layer(f, e - 1), m, s);
      RunPhase(CompareExchange(x, f, e - 1, m), f, e - 1, m, rest, s + 1);
    }
  }

  /** Running the layers with an exact comparator is running phases f to m. */
  lemma {:induction false} RunIsPhases(x: Vec, f: nat, m: nat, s: nat)
    requires |x| == Pow2(m) && f >= 1 && Fits(Layers(f, m), m)
    ensures Run(x, Layers(f, m), m, Exact(), s) == SortFrom(x, f, m)
    decreases m + 1 - f
  {
    if f <= m {
      hide Run, Merge, PhaseLayers;
      assert Layers(f, m) == PhaseLayers(f, f) + Layers(f + 1, m);
      RunPhase(x, f, f, m, Layers(f + 1, m), s);
      RunIsPhases(Merge(x, f, f, m), f + 1, m, s + f);
    }
  }
}
