/**
 The modulus chain of `level_and_scale_tracing.py`: its sections and rows, the live columns of a row, the product of
 the live primes, and what a drop that divides by the primes it removes does to them. `Decimal` scales are exact reals.
 */
module ModulusChain {
  import opened Wrappers

  /** Row counts of the chain's sections, in chain order; all bootstrap sections are empty without a bootstrap. */
  datatype Layout = Layout(pipeline: nat, cts: nat, evalMod: nat, stc: nat, base: nat, special: nat)

  /** The drawn primes of every row, and the padded row width of `full_active_cols`. */
  datatype Chain = Chain(layout: Layout, factors: seq<seq<nat>>, maxCols: nat)

  predicate ValidChain(ch: Chain) {
    var l := ch.layout;
    l.pipeline + l.cts + l.evalMod + l.stc + l.base + l.special == |ch.factors| &&
    forall r :: 0 <= r < |ch.factors| ==> ValidRow(ch, r)
  }

  predicate ValidRow(ch: Chain, r: nat)
    requires r < |ch.factors|
  {
    1 <= |ch.factors[r]| <= ch.maxCols && Positive(ch.factors[r])
  }

  predicate Positive(s: seq<nat>) {
    forall c :: 0 <= c < |s| ==> s[c] > 0
  }

  /** The level metadata of a ciphertext. */
  datatype Meta = Meta(rows: seq<nat>, cols: seq<seq<bool>>, scale: real)

  // ----- sections -----

  function Range(lo: nat, n: nat): (r: seq<nat>)
    ensures |r| == n && forall i :: 0 <= i < n ==> r[i] == lo + i
  {
    seq(n, i => lo + i)
  }

  function PipelineRows(ch: Chain): seq<nat> { Range(0, ch.layout.pipeline) }

  function StcRows(ch: Chain): seq<nat> {
    Range(ch.layout.pipeline + ch.layout.cts + ch.layout.evalMod, ch.layout.stc)
  }

  function BaseRows(ch: Chain): seq<nat> {
    Range(ch.layout.pipeline + ch.layout.cts + ch.layout.evalMod + ch.layout.stc, ch.layout.base)
  }

  // ----- live columns of a row -----

  /** `sum(active_cols[row])`. */
  function LiveCount(col: seq<bool>): nat {
    if col == [] then 0 else (if col[0] then 1 else 0) + LiveCount(col[1..])
  }

  /** The first live column. */
  function Start(col: seq<bool>): (s: nat)
    ensures s <= |col| && (forall c :: 0 <= c < s ==> !col[c]) && (s < |col| ==> col[s])
  {
    if col == [] || col[0] then 0
    else
      assert forall c :: 0 < c < |col| ==> col[c] == col[1..][c - 1];
      1 + Start(col[1..])
  }

  /** The live columns are a non-empty suffix of the row's own columns. */
  predicate LiveSuffix(col: seq<bool>, width: nat) {
    1 <= width <= |col| && col[width - 1] && (forall c :: width <= c < |col| ==> !col[c]) &&
    forall c :: Start(col) <= c < width ==> col[c]
  }

  lemma {:induction false} LiveSuffixCount(col: seq<bool>, width: nat)
    requires width <= |col| && (forall c :: width <= c < |col| ==> !col[c])
    requires forall c :: Start(col) <= c < width ==> col[c]
    ensures LiveCount(col) == if Start(col) < width then width - Start(col) else 0
  {
    if col != [] {
      var rest := col[1..];
      assert Start(col) == if col[0] then 0 else 1 + Start(rest);
      if width > 0 {
        assert forall c :: 0 <= c < |rest| ==> rest[c] == col[c + 1];
        if col[0] { assert forall c :: 0 <= c < width - 1 ==> rest[c]; }
        LiveSuffixCount(rest, width - 1);
        if col[0] && width > 1 { assert rest[0]; }
      } else {
        assert forall c :: 0 <= c < |rest| ==> !rest[c];
        LiveSuffixCount(rest, 0);
      }
    }
  }

  /** Clear the columns before `upTo`. */
  function Cleared(col: seq<bool>, upTo: nat): (r: seq<bool>)
    ensures |r| == |col|
  {
    seq(|col|, c requires 0 <= c < |col| => c >= upTo && col[c])
  }

  lemma ClearedSuffix(col: seq<bool>, width: nat, n: nat)
    requires LiveSuffix(col, width) && n < LiveCount(col)
    ensures LiveSuffix(Cleared(col, Start(col) + n), width)
    ensures Start(Cleared(col, Start(col) + n)) == Start(col) + n
    ensures LiveCount(Cleared(col, Start(col) + n)) == LiveCount(col) - n
  {
    LiveSuffixCount(col, width);
    var r := Cleared(col, Start(col) + n);
    assert r[Start(col) + n];
    LiveSuffixCount(r, width);
  }

  function FullCols(ch: Chain, r: nat): (col: seq<bool>)
    requires ValidChain(ch) && r < |ch.factors|
    ensures LiveSuffix(col, |ch.factors[r]|) && |col| == ch.maxCols && LiveCount(col) == |ch.factors[r]|
  {
    assert ValidRow(ch, r);
    var col := seq(ch.maxCols, c => c < |ch.factors[r]|);
    assert col[0];
    LiveSuffixCount(col, |ch.factors[r]|);
    col
  }

  // ----- products of primes -----

  /** a * b as repeated addition, which keeps products folded in proofs. */
  function Times(a: nat, b: nat): nat {
    if a == 0 then 0 else b + Times(a - 1, b)
  }

  lemma {:induction false} TimesIs(a: nat, b: nat)
    ensures Times(a, b) == a * b
  {
    if a > 0 {
      TimesIs(a - 1, b);
      assert a * b == (a - 1) * b + b;
    }
  }

  function Prod(s: seq<nat>): nat {
    if s == [] then 1 else Times(s[0], Prod(s[1..]))
  }

  lemma {:induction false} ProdPositive(s: seq<nat>)
    requires Positive(s)
    ensures Prod(s) > 0
  {
    if s != [] {
      ProdPositive(s[1..]);
      assert s[0] > 0;
      TimesIs(s[0], Prod(s[1..]));
    }
  }

  lemma {:induction false} ProdAppend(a: seq<nat>, b: seq<nat>)
    ensures Prod(a + b) == Prod(a) * Prod(b)
  {
    if a == [] {
      assert a + b == b;
    } else {
      ProdAppend(a[1..], b);
      assert (a + b)[1..] == a[1..] + b && (a + b)[0] == a[0];
      TimesIs(a[0], Prod(a[1..] + b));
      TimesIs(a[0], Prod(a[1..]));
      Associates(a[0], Prod(a[1..]), Prod(b));
    }
  }

  lemma Associates(a: nat, b: nat, c: nat)
    ensures a * (b * c) == (a * b) * c
  {}

  /** The product of the live primes of one row. */
  function RowProduct(primes: seq<nat>, col: seq<bool>): nat {
    if Start(col) <= |primes| then Prod(primes[Start(col)..]) else 1
  }

  function RowProducts(ch: Chain, s: Meta): (r: seq<nat>)
    requires Good(ch, s)
    ensures |r| == |s.rows|
  {
    seq(|s.rows|, k requires 0 <= k < |s.rows| =>
      assert GoodRow(ch, s.rows, s.cols, k); RowProduct(ch.factors[s.rows[k]], s.cols[k]))
  }

  /** The product of all live primes: the ciphertext's current modulus. */
  function Modulus(ch: Chain, s: Meta): nat
    requires Good(ch, s)
  {
    Prod(RowProducts(ch, s))
  }

  // ----- states -----

  /** Every active row is a row of the chain and has one flag for each padded column. */
  predicate Formed(ch: Chain, s: Meta) {
    |s.rows| == |s.cols| && forall k :: 0 <= k < |s.rows| ==> FormedRow(ch, s.rows[k], s.cols[k])
  }

  predicate FormedRow(ch: Chain, row: nat, col: seq<bool>) { row < |ch.factors| && |col| == ch.maxCols }

  /** Active rows are different rows of the chain, each with a non-empty suffix of live columns. */
  predicate Good(ch: Chain, s: Meta) { GoodLevel(ch, s.rows, s.cols) }

  predicate GoodLevel(ch: Chain, rows: seq<nat>, cols: seq<seq<bool>>) {
    |rows| == |cols| && Distinct(rows) && forall k :: 0 <= k < |rows| ==> GoodRow(ch, rows, cols, k)
  }

  predicate GoodRow(ch: Chain, rows: seq<nat>, cols: seq<seq<bool>>, k: nat)
    requires k < |rows| == |cols|
  {
    rows[k] < |ch.factors| && |cols[k]| == ch.maxCols && LiveSuffix(cols[k], |ch.factors[rows[k]]|)
  }

  predicate Distinct(rows: seq<nat>) {
    forall j, k :: 0 <= j < k < |rows| ==> rows[j] != rows[k]
  }

  predicate Ascending(rows: seq<nat>) {
    forall j, k :: 0 <= j < k < |rows| ==> rows[j] < rows[k]
  }

  lemma SameLength(ch: Chain, s: Meta)
    requires Good(ch, s)
    ensures |s.rows| == |s.cols|
  {}

  lemma GoodIsFormed(ch: Chain, s: Meta)
    requires Good(ch, s)
    ensures Formed(ch, s)
  {
    forall k | 0 <= k < |s.rows|
      ensures FormedRow(ch, s.rows[k], s.cols[k])
    {
      assert GoodRow(ch, s.rows, s.cols, k);
    }
  }

  /** How many columns are live in the rows that the budget allows. */
  function LiveIn(rows: seq<nat>, cols: seq<seq<bool>>, budget: Option<set<nat>>): nat
    requires |rows| == |cols|
  {
    if rows == [] then 0
    else (if Allowed(rows[0], budget) then LiveCount(cols[0]) else 0) + LiveIn(rows[1..], cols[1..], budget)
  }

  function BudgetLive(s: Meta, budget: Option<set<nat>>): nat
    requires |s.rows| == |s.cols|
  {
    LiveIn(s.rows, s.cols, budget)
  }

  predicate Allowed(row: nat, budget: Option<set<nat>>) {
    budget.None? || row in budget.value
  }

  function Live(s: Meta): nat
    requires |s.rows| == |s.cols|
  {
    BudgetLive(s, None)
  }

  // ----- one drop -----

  /** What dropping the first n live columns of relative row k leaves; the whole row goes with its last column. */
  function Dropped(ch: Chain, s: Meta, k: nat, n: nat): Meta
    requires ValidChain(ch) && Good(ch, s) && k < |s.rows| && 1 <= n <= LiveCount(s.cols[k])
  {
    var scale := s.scale / DropFactor(ch, s, k, n) as real;
    if n == LiveCount(s.cols[k]) then
      Meta(s.rows[..k] + s.rows[k + 1..], s.cols[..k] + s.cols[k + 1..], scale)
    else
      Meta(s.rows, s.cols[k := Cleared(s.cols[k], Start(s.cols[k]) + n)], scale)
  }

  /** The primes that a drop divides the scale by. */
  function DropFactor(ch: Chain, s: Meta, k: nat, n: nat): (p: nat)
    requires ValidChain(ch) && Good(ch, s) && k < |s.rows| && n <= LiveCount(s.cols[k])
    ensures p > 0
  {
    assert GoodRow(ch, s.rows, s.cols, k) && ValidRow(ch, s.rows[k]);
    LiveSuffixCount(s.cols[k], |ch.factors[s.rows[k]]|);
    var start := Start(s.cols[k]);
    ProdPositive(ch.factors[s.rows[k]][start..start + n]);
    Prod(ch.factors[s.rows[k]][start..start + n])
  }

  lemma DropKeepsGood(ch: Chain, s: Meta, k: nat, n: nat)
    requires ValidChain(ch) && Good(ch, s) && k < |s.rows| && 1 <= n <= LiveCount(s.cols[k])
    ensures Good(ch, Dropped(ch, s, k, n))
  {
    var t := Dropped(ch, s, k, n);
    if n == LiveCount(s.cols[k]) {
      forall j | 0 <= j < |t.rows|
        ensures GoodRow(ch, t.rows, t.cols, j)
      {
        assert GoodRow(ch, s.rows, s.cols, if j < k then j else j + 1);
      }
    } else {
      assert GoodRow(ch, s.rows, s.cols, k);
      ClearedSuffix(s.cols[k], |ch.factors[s.rows[k]]|, n);
      forall j | 0 <= j < |t.rows|
        ensures GoodRow(ch, t.rows, t.cols, j)
      {
        assert GoodRow(ch, s.rows, s.cols, j);
      }
    }
  }

  lemma DropKeepsOrder(ch: Chain, s: Meta, k: nat, n: nat)
    requires ValidChain(ch) && Good(ch, s) && k < |s.rows| && 1 <= n <= LiveCount(s.cols[k]) && Ascending(s.rows)
    ensures Ascending(Dropped(ch, s, k, n).rows)
  {}

  lemma RowDrop(primes: seq<nat>, start: nat, n: nat)
    requires start + n <= |primes|
    ensures Prod(primes[start..]) == Prod(primes[start..start + n]) * Prod(primes[start + n..])
  {
    ProdAppend(primes[start..start + n], primes[start + n..]);
    assert primes[start..start + n] + primes[start + n..] == primes[start..];
  }

  /** A list of row products, with one row's product divided by f or removed. */
  lemma DivideRow(a: seq<nat>, k: nat, f: nat, w: nat)
    requires k < |a| && a[k] == f * w
    ensures Prod(a) == f * Prod(a[..k] + [w] + a[k + 1..])
    ensures w == 1 ==> Prod(a) == f * Prod(a[..k] + a[k + 1..])
  {
    assert a == a[..k] + [a[k]] + a[k + 1..];
    SplitProduct(a[..k], a[k], a[k + 1..]);
    DivideParts(a[..k], f, w, a[k + 1..], a[k], Prod(a));
  }

  lemma DivideParts(a: seq<nat>, f: nat, w: nat, b: seq<nat>, x: nat, p: nat)
    requires x == f * w && p == Prod(a) * x * Prod(b)
    ensures p == f * Prod(a + [w] + b)
    ensures w == 1 ==> p == f * Prod(a + b)
  {
    SplitProduct(a, w, b);
    ProdAppend(a, b);
    Rearrange(Prod(a), f, w, Prod(b));
  }

  /** A drop removes exactly its factor from the modulus. */
  lemma DropDividesModulus(ch: Chain, s: Meta, k: nat, n: nat, t: Meta)
    requires ValidChain(ch) && Good(ch, s) && k < |s.rows| && 1 <= n <= LiveCount(s.cols[k])
    requires t == Dropped(ch, s, k, n) && Good(ch, t)
    ensures Modulus(ch, s) == DropFactor(ch, s, k, n) * Modulus(ch, t)
  {
    assert GoodRow(ch, s.rows, s.cols, k);
    var primes, col := ch.factors[s.rows[k]], s.cols[k];
    LiveSuffixCount(col, |primes|);
    RowDrop(primes, Start(col), n);
    var w := Prod(primes[Start(col) + n..]);
    DivideRow(RowProducts(ch, s), k, DropFactor(ch, s, k, n), w);
    ProductsAfterDrop(ch, s, k, n, t, RowProducts(ch, s), w);
  }

  /** The row products after a drop: the row's quotient, or nothing when the row is gone. */
  lemma ProductsAfterDrop(ch: Chain, s: Meta, k: nat, n: nat, t: Meta, a: seq<nat>, w: nat)
    requires ValidChain(ch) && Good(ch, s) && k < |s.rows| && 1 <= n <= LiveCount(s.cols[k])
    requires t == Dropped(ch, s, k, n) && Good(ch, t) && a == RowProducts(ch, s) && s.rows[k] < |ch.factors|
    requires Start(s.cols[k]) + n <= |ch.factors[s.rows[k]]| && w == Prod(ch.factors[s.rows[k]][Start(s.cols[k]) + n..])
    ensures n < LiveCount(s.cols[k]) ==> RowProducts(ch, t) == a[..k] + [w] + a[k + 1..]
    ensures n == LiveCount(s.cols[k]) ==> w == 1 && RowProducts(ch, t) == a[..k] + a[k + 1..]
  {
    assert GoodRow(ch, s.rows, s.cols, k);
    LiveSuffixCount(s.cols[k], |ch.factors[s.rows[k]]|);
    if n < LiveCount(s.cols[k]) {
      ProductsCleared(ch, s, k, n, t, a, w);
    } else {
      ProductsRemoved(ch, s, k, n, t, a);
    }
  }

  /** The product of one active row. */
  lemma ProductAt(ch: Chain, s: Meta, j: nat, row: nat, col: seq<bool>)
    requires Good(ch, s) && j < |s.rows| && row == s.rows[j] && col == s.cols[j]
    ensures row < |ch.factors| && RowProducts(ch, s)[j] == RowProduct(ch.factors[row], col)
  {
    assert GoodRow(ch, s.rows, s.cols, j);
  }

  lemma ProductsCleared(ch: Chain, s: Meta, k: nat, n: nat, t: Meta, a: seq<nat>, w: nat)
    requires ValidChain(ch) && Good(ch, s) && k < |s.rows| && 1 <= n < LiveCount(s.cols[k])
    requires t == Dropped(ch, s, k, n) && Good(ch, t) && a == RowProducts(ch, s) && s.rows[k] < |ch.factors|
    requires Start(s.cols[k]) + n <= |ch.factors[s.rows[k]]| && w == Prod(ch.factors[s.rows[k]][Start(s.cols[k]) + n..])
    ensures RowProducts(ch, t) == a[..k] + [w] + a[k + 1..]
  {
    hide Prod, RowProducts;
    assert GoodRow(ch, s.rows, s.cols, k);
    ClearedSuffix(s.cols[k], |ch.factors[s.rows[k]]|, n);
    forall j | 0 <= j < |t.rows|
      ensures RowProducts(ch, t)[j] == (a[..k] + [w] + a[k + 1..])[j]
    {
      ProductAt(ch, t, j, t.rows[j], t.cols[j]);
      ProductAt(ch, s, j, s.rows[j], s.cols[j]);
    }
  }

  lemma ProductsRemoved(ch: Chain, s: Meta, k: nat, n: nat, t: Meta, a: seq<nat>)
    requires ValidChain(ch) && Good(ch, s) && k < |s.rows| && 1 <= n == LiveCount(s.cols[k])
    requires t == Dropped(ch, s, k, n) && Good(ch, t) && a == RowProducts(ch, s)
    ensures RowProducts(ch, t) == a[..k] + a[k + 1..]
  {
    hide Prod, RowProducts, RowProduct;
    forall j | 0 <= j < |t.rows|
      ensures RowProducts(ch, t)[j] == (a[..k] + a[k + 1..])[j]
    {
      var o := if j < k then j else j + 1;
      ProductAt(ch, t, j, t.rows[j], t.cols[j]);
      ProductAt(ch, s, o, s.rows[o], s.cols[o]);
    }
  }

  lemma SplitProduct(a: seq<nat>, x: nat, b: seq<nat>)
    ensures Prod(a + [x] + b) == Prod(a) * x * Prod(b)
  {
    ProdAppend(a + [x], b);
    ProdAppend(a, [x]);
    TimesIs(x, 1);
    assert [x][1..] == [];
  }

  lemma Rearrange(a: nat, f: nat, w: nat, b: nat)
    ensures a * (f * w) * b == f * (a * w * b)
    ensures w == 1 ==> a * f * b == f * (a * b)
  {}

  lemma {:induction false} LiveInSplit(rows: seq<nat>, cols: seq<seq<bool>>, k: nat, budget: Option<set<nat>>)
    requires k <= |rows| == |cols|
    ensures LiveIn(rows, cols, budget) == LiveIn(rows[..k], cols[..k], budget) + LiveIn(rows[k..], cols[k..], budget)
  {
    if k > 0 {
      LiveInSplit(rows[1..], cols[1..], k - 1, budget);
      assert rows[..k][1..] == rows[1..][..k - 1] && cols[..k][1..] == cols[1..][..k - 1];
      assert rows[1..][k - 1..] == rows[k..] && cols[1..][k - 1..] == cols[k..];
    } else {
      assert rows[0..] == rows && cols[0..] == cols;
    }
  }

  /** The live columns, with row k set apart. */
  lemma LiveInAround(rows: seq<nat>, cols: seq<seq<bool>>, k: nat, budget: Option<set<nat>>)
    requires k < |rows| == |cols|
    ensures LiveIn(rows, cols, budget) == LiveIn(rows[..k], cols[..k], budget) +
            (if Allowed(rows[k], budget) then LiveCount(cols[k]) else 0) + LiveIn(rows[k + 1..], cols[k + 1..], budget)
  {
    LiveInSplit(rows, cols, k, budget);
    assert rows[k..][1..] == rows[k + 1..] && cols[k..][1..] == cols[k + 1..];
  }

  /** A drop removes exactly n live columns, all from its own row. */
  lemma DropRemovesLive(ch: Chain, s: Meta, k: nat, n: nat, budget: Option<set<nat>>)
    requires ValidChain(ch) && Good(ch, s) && k < |s.rows| && 1 <= n <= LiveCount(s.cols[k])
    ensures |Dropped(ch, s, k, n).rows| == |Dropped(ch, s, k, n).cols|
    ensures BudgetLive(Dropped(ch, s, k, n), budget) ==
            BudgetLive(s, budget) - (if Allowed(s.rows[k], budget) then n else 0)
  {
    hide LiveIn;
    var t := Dropped(ch, s, k, n);
    assert GoodRow(ch, s.rows, s.cols, k);
    LiveInAround(s.rows, s.cols, k, budget);
    assert t.rows[..k] == s.rows[..k] && t.cols[..k] == s.cols[..k];
    if n == LiveCount(s.cols[k]) {
      LiveInSplit(t.rows, t.cols, k, budget);
      assert t.rows[k..] == s.rows[k + 1..] && t.cols[k..] == s.cols[k + 1..];
    } else {
      ClearedSuffix(s.cols[k], |ch.factors[s.rows[k]]|, n);
      LiveInAround(t.rows, t.cols, k, budget);
      assert t.rows[k + 1..] == s.rows[k + 1..] && t.cols[k + 1..] == s.cols[k + 1..];
    }
  }
}
